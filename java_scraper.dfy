/** The Java `Scraper`: typed reading of an element's text (`Double`,
    `Integer`, `String`, `LocalDate`, `LocalDateTime`), the read with a
    fallback value, and the exponential backoff used to load a page.

    Java's `null` is `None`. Jsoup is not part of this model: a page is its
    markup text, an element the text `Element.text()` gives, and a page load
    the stream of what the successive connection attempts give. Logging and
    sleeping are left out; the delays are returned instead. */
module JavaScraper {
  import opened Common
  import opened Numbers
  import opened Dates
  import Parsers
  import Backoff

  /** The classes `convertTextToType` handles. */
  datatype JavaType = DoubleType | IntegerType | StringType | LocalDateType | LocalDateTimeType

  /** A converted value, tagged by its class. */
  datatype Value =
    | DoubleValue(number: Float)
    | IntegerValue(integer: int)
    | StringValue(text: string)
    | DateValue(date: Date)
    | DateTimeValue(dateTime: DateTime)

  predicate HasType(v: Value, t: JavaType) {
    match t
    case DoubleType => v.DoubleValue?
    case IntegerType => v.IntegerValue?
    case StringType => v.StringValue?
    case LocalDateType => v.DateValue?
    case LocalDateTimeType => v.DateTimeValue?
  }

  /** The `Double` branch: a text matching `^(\d{1,3})(\.?\d{3})*(,\d+)?$`
      loses its dots and has its comma made a point, any other loses its
      commas (the same rewriting as `Parsers.Normalize`), then
      `Double.valueOf`. */
  function ConvertDouble(text: string): Option<Float> {
    JavaDoubleValueOf(Parsers.Normalize(text))
  }

  /** The `Integer` branch: every dot and comma removed, then `Integer.valueOf`. */
  function ConvertInteger(text: string): (r: Option<int>)
    ensures r.Some? ==> I32_MIN <= r.value <= I32_MAX
  {
    JavaIntegerValueOf(RemoveChar(RemoveChar(text, '.'), ','))
  }

  /** `convertTextToType`: dates use `dd/MM/yy` and `dd/MM/yy - H.mm.ss`; a
      format exception gives `null`. */
  function ConvertTextToType(text: string, t: JavaType): (r: Option<Value>)
    ensures r.Some? ==> HasType(r.value, t)
    ensures t == StringType ==> r == Some(StringValue(text))
    ensures t == IntegerType && r.Some? ==> I32_MIN <= r.value.integer <= I32_MAX
    ensures t == LocalDateType && r.Some? ==> ValidDate(r.value.date)
    ensures t == LocalDateTimeType && r.Some? ==> ValidDate(r.value.dateTime.date) && JavaValidTime(r.value.dateTime.time)
  {
    match t
    case DoubleType => (match ConvertDouble(text) case None => None case Some(d) => Some(DoubleValue(d)))
    case IntegerType => (match ConvertInteger(text) case None => None case Some(i) => Some(IntegerValue(i)))
    case StringType => Some(StringValue(text))
    case LocalDateType => (match JavaParseDate(text) case None => None case Some(d) => Some(DateValue(d)))
    case LocalDateTimeType => (match JavaParseDateTime(text) case None => None case Some(dt) => Some(DateTimeValue(dt)))
  }

  /** `getContentOrFallback`: the element's converted text, or the fallback
      when there is no element or the text does not convert. */
  function GetContentOrFallback(el: Option<string>, fallback: Option<Value>, t: JavaType): (r: Option<Value>)
    ensures el.None? ==> r == fallback
    ensures el.Some? && ConvertTextToType(el.value, t).None? ==> r == fallback
    ensures el.Some? && ConvertTextToType(el.value, t).Some? ==> r == ConvertTextToType(el.value, t)
    ensures (fallback.None? || HasType(fallback.value, t)) && r.Some? ==> HasType(r.value, t)
  {
    match el
    case None => fallback
    case Some(text) =>
      var value := ConvertTextToType(text, t);
      if value.Some? then value else fallback
  }

  // Doubles and integers

  /** Digits and dots with a digit at both ends: Java reads them as the
      unsigned decimal they spell. */
  lemma JavaReadPointed(x: string, f: string)
    requires x != [] && AllDigits(x) && AllDigits(f)
    ensures JavaDoubleValueOf(x + "." + f) == Some(Finite(DecimalValue(x, f)))
  {
    var s := x + "." + f;
    assert s[0] == x[0];
    assert s[|s| - 1] > ' ' by {
      if f == [] { assert s[|s| - 1] == '.'; } else { assert s[|s| - 1] == f[|f| - 1]; }
    }
    assert JavaTrim(s) == s;
    assert s != "NaN" && s != "Infinity" by { assert s[0] != 'N' && s[0] != 'I'; }
    assert !(s[|s| - 1] in "fFdD") by {
      if f == [] { assert s[|s| - 1] == '.'; } else { assert s[|s| - 1] == f[|f| - 1]; }
    }
    ParsePointedDigits(x, f);
  }

  /** Italian decimals: `1.234,56` is read as 1234.56. */
  lemma JavaItalianDecimal(g: string, f: string)
    requires GroupedInteger(g) && f != [] && AllDigits(f)
    ensures ConvertDouble(g + "," + f) == Some(Finite(DecimalValue(Parsers.WholeDigits(g), f)))
  {
    Parsers.NormalizeItalian(g, f);
    JavaReadPointed(Parsers.WholeDigits(g), f);
  }

  /** Java and the Rust `parse_float` read Italian decimals alike. */
  lemma JavaAgreesWithRust(g: string, f: string)
    requires GroupedInteger(g) && f != [] && AllDigits(f)
    ensures ConvertDouble(g + "," + f) == Parsers.ParseFloat(g + "," + f)
  {
    JavaItalianDecimal(g, f);
    Parsers.ItalianDecimal(g, f);
  }

  /** `1.234,56` is 1234.56. */
  lemma JavaThousandsExample()
    ensures ConvertDouble("1.234,56") == Some(Finite(1234.56))
  {
    Parsers.GroupedThousands();
    Parsers.DecimalExamples();
    assert "1.234" + "," + "56" == "1.234,56";
    JavaItalianDecimal("1.234", "56");
  }

  /** `1.234 56` is not a number: the blank is neither dropped nor read. */
  lemma JavaBlankRejected()
    ensures ConvertDouble("1.234 56").None?
  {
    var s := "1.234 56";
    var x, y, z := BlankParts();
    assert x + "." + (y + " " + z) == s;
    assert Parsers.Normalize(s) == s by {
      BlankUnmatched(s);
      RemoveCharAbsent(s, ',');
    }
    JavaBlankAfterPoint(x, y, z);
  }

  lemma BlankParts() returns (x: string, y: string, z: string)
    ensures x == "1" && y == "234" && z == "56"
    ensures x != [] && z != [] && AllDigits(x) && AllDigits(y) && AllDigits(z)
  {
    x, y, z := "1", "234", "56";
  }

  /** `1.234 56` does not match the thousands expression. */
  lemma BlankUnmatched(s: string)
    requires s == "1.234 56"
    ensures !MatchesThousandsPattern(s) && forall i :: 0 <= i < |s| ==> s[i] != ','
  {
    assert !MatchesThousandsPattern(s) by {
      assert !AllDigits(s[..2]) by { assert s[..2][1] == '.'; }
      assert !AllDigits(s[..3]) by { assert s[..3][1] == '.'; }
      var t := s[1..];
      assert !DecimalTail(t) by { assert t[0] == '.'; }
      assert !AllDigits(t[..3]) by { assert t[..3][0] == '.'; }
      assert !GroupTail(t[4..]) by {
        var u := t[4..];
        assert u == " 56";
        assert !DecimalTail(u) && !AllDigits(u[..3]) by { assert u[0] == ' ' && u[..3][0] == ' '; }
      }
    }
  }

  /** Java refuses digits, a point and digits broken by a blank. */
  lemma JavaBlankAfterPoint(x: string, y: string, z: string)
    requires x != [] && z != [] && AllDigits(x) && AllDigits(y) && AllDigits(z)
    ensures JavaDoubleValueOf(x + "." + (y + " " + z)).None?
  {
    var s := x + "." + (y + " " + z);
    assert s[0] == x[0] && IsDigit(s[0]);
    assert s[|s| - 1] == z[|z| - 1] && IsDigit(s[|s| - 1]);
    assert JavaTrim(s) == s;
    assert s != "NaN" && s != "Infinity" by { assert s[0] != 'N' && s[0] != 'I'; }
    assert !(s[|s| - 1] in "fFdD");
    ParseBlankAfterPoint(x, y, z);
  }

  /** An integer with dot separators is read as its digits when it fits in
      an `int`. */
  lemma JavaGroupedInteger(g: string)
    requires GroupedInteger(g) && DigitsValue(Parsers.WholeDigits(g)) <= I32_MAX
    ensures ConvertInteger(g) == Some(DigitsValue(Parsers.WholeDigits(g)))
  {
    RemoveCharAbsent(Parsers.WholeDigits(g), ',');
    assert Parsers.WholeDigits(g)[0] != '+' && Parsers.WholeDigits(g)[0] != '-';
  }

  /** Commas go too, so a decimal is read as an integer: `1.234,5` is 12345. */
  lemma JavaIntegerFromDecimal()
    ensures ConvertInteger("1.234,5") == Some(12345)
  {
    var x, y, z := DecimalParts();
    assert x + "." + (y + "," + z) == "1.234,5";
    DropMarks(x, y, z);
    JavaDigitsInteger(x + y + z);
  }

  lemma DecimalParts() returns (x: string, y: string, z: string)
    ensures AllDigits(x) && AllDigits(y) && AllDigits(z) && x + y + z != []
    ensures x == "1" && y == "234" && z == "5"
    ensures AllDigits(x + y + z) && DigitsValue(x + y + z) == 12345
  {
    x, y, z := "1", "234", "5";
    assert x + y + z == "12345";
    assert "12345"[..4] == "1234" && "1234"[..3] == "123" && "123"[..2] == "12" && "12"[..1] == "1" && "1"[..0] == [];
  }

  /** Removing the dots and then the commas of `x.y,z` leaves the digits `xyz`. */
  lemma DropMarks(x: string, y: string, z: string)
    requires AllDigits(x) && AllDigits(y) && AllDigits(z)
    ensures RemoveChar(RemoveChar(x + "." + (y + "," + z), '.'), ',') == x + y + z
  {
    var t := y + "," + z;
    DigitsUnmarked(x);
    DigitsUnmarked(y);
    DigitsUnmarked(z);
    forall i | 0 <= i < |t| ensures t[i] != '.' {
      if i < |y| { assert t[i] == y[i]; } else if i > |y| { assert t[i] == z[i - |y| - 1]; }
    }
    assert RemoveChar(x + "." + t, '.') == x + t by { RemoveCharAround(x, '.', t); }
    assert x + t == (x + y) + "," + z;
    forall i | 0 <= i < |x + y| ensures (x + y)[i] != ',' {
      if i < |x| { assert (x + y)[i] == x[i]; } else { assert (x + y)[i] == y[i - |x|]; }
    }
    RemoveCharAround(x + y, ',', z);
  }

  /** A run of digits within range is read as its value. */
  lemma JavaDigitsInteger(w: string)
    requires w != [] && AllDigits(w) && DigitsValue(w) <= I32_MAX
    ensures JavaIntegerValueOf(w) == Some(DigitsValue(w))
  {
    assert IsDigit(w[0]);
  }

  // Dates

  /** A valid date written `dd/MM/yy` is read back. */
  lemma JavaDateConverts(d: Date)
    requires ValidDate(d) && d.yy < 100
    ensures ConvertTextToType(FormatDate(d), LocalDateType) == Some(DateValue(d))
  {
    JavaDateRoundTrip(d);
  }

  /** A valid date-time written `dd/MM/yy - HH.mm.ss` is read back. */
  lemma JavaDateTimeConverts(dt: DateTime)
    requires ValidDate(dt.date) && JavaValidTime(dt.time)
    ensures ConvertTextToType(FormatDateTime(dt, true), LocalDateTimeType) == Some(DateTimeValue(dt))
  {
    JavaDateTimeRoundTrip(dt);
  }

  /** The date-time pattern holds `" - "`: text without it is never a date-time. */
  lemma DateTimeNeedsDash(s: string)
    requires !Contains(s, " - ")
    ensures ConvertTextToType(s, LocalDateTimeType).None?
  {
    JavaDashedCount();
    if JavaScan(s, JavaDashed).Some? {
      DashedShapeOf(s, JavaDashed);
      assert OccursAt(s, " - ", 8);
      assert false;
    }
  }

  /** Text matching a pattern that starts `dd/MM/yy - ` holds `" - "` after the date. */
  lemma DashedShapeOf(s: string, items: seq<JavaItem>)
    requires |items| >= 8 && items[0] == Digits(2, 2) && items[1] == Char('/') && items[2] == Digits(2, 2)
    requires items[3] == Char('/') && items[4] == Digits(2, 2)
    requires items[5] == Char(' ') && items[6] == Char('-') && items[7] == Char(' ')
    requires JavaScan(s, items).Some?
    ensures |s| >= 11 && s[8..11] == " - "
  {
    ScanDigitsSlash(s, items);
    var d2 := items[2..];
    ScanDigitsSlash(s[3..], d2);
    assert s[3..][3..] == s[6..];
    ScanTwoDigits(s[6..], d2[2..]);
    assert s[6..][2..] == s[8..];
    var d5 := d2[2..][1..];
    assert d5 == items[5..];
    ScanChar(s[8..], ' ', d5);
    assert s[8..][1..] == s[9..];
    ScanChar(s[9..], '-', d5[1..]);
    assert s[9..][1..] == s[10..];
    ScanChar(s[10..], ' ', d5[1..][1..]);
    assert s[8..11] == [s[8], s[9], s[10]];
  }

  /** A `dd/` prefix takes exactly three characters. */
  lemma ScanDigitsSlash(s: string, items: seq<JavaItem>)
    requires |items| >= 2 && items[0] == Digits(2, 2) && items[1] == Char('/')
    requires JavaScan(s, items).Some?
    ensures |s| >= 3 && JavaScan(s[3..], items[2..]).Some?
  {
    ScanTwoDigits(s, items);
    ScanChar(s[2..], '/', items[1..]);
    assert s[2..][1..] == s[3..];
    assert items[1..][1..] == items[2..];
  }

  /** A two-digit field takes exactly two characters. */
  lemma ScanTwoDigits(s: string, items: seq<JavaItem>)
    requires |items| >= 1 && items[0] == Digits(2, 2)
    requires JavaScan(s, items).Some?
    ensures |s| >= 2 && JavaScan(s[2..], items[1..]).Some?
  {
  }

  /** A literal takes exactly its one character. */
  lemma ScanChar(s: string, c: char, items: seq<JavaItem>)
    requires |items| >= 1 && items[0] == Char(c)
    requires JavaScan(s, items).Some?
    ensures s != [] && s[0] == c && JavaScan(s[1..], items[1..]).Some?
  {
  }

  // Exponential backoff

  /** What one call of the connection gives: a value, or an exception with its message. */
  datatype Call<T> = Returned(value: T) | Threw(message: string)

  const JAVA_MAX_RETRIES: nat := 15

  /** `RETRY_CONDITION`: only a "too many requests" answer is retried. */
  predicate RetryCondition(message: string) {
    Contains(message, "Status=429")
  }

  /** A message naming status 429 is retried; one naming status 503 is not. */
  lemma RetryOnTooManyRequests(tooMany: string, unavailable: string)
    requires tooMany == "Status=429" && unavailable == "Status=503"
    ensures RetryCondition(tooMany) && !RetryCondition(unavailable)
  {
    assert OccursAt(tooMany, "Status=429", 0);
    assert unavailable[9] != "Status=429"[9];
    assert !OccursAt(unavailable, "Status=429", 0);
  }

  /** The delay after the failure of call `retries`, `2^retries * 1000` ms. */
  function JavaWait(retries: nat): nat {
    Backoff.Pow2(retries) * 1000
  }

  /** The delays after calls `j`, ..., `k - 1`. */
  function WaitRange(j: nat, k: nat): (r: seq<nat>)
    requires j <= k
    ensures |r| == k - j && forall i :: 0 <= i < k - j ==> r[i] == JavaWait(j + i)
    decreases k - j
  {
    if j == k then [] else [JavaWait(j)] + WaitRange(j + 1, k)
  }

  /** A run: its result (an `IOException` message on failure), the delays
      slept and the number of calls. */
  datatype JavaTrace<T> = JavaTrace(result: Result<T, string>, waits: seq<nat>, calls: nat)

  /** Call `retries` threw an exception the condition accepts. */
  predicate RetryableAt<T>(fn: nat -> Call<T>, condition: string -> bool, i: nat) {
    fn(i).Threw? && condition(fn(i).message)
  }

  /** The rest of a run entered with `retries` failures behind it. */
  function Attempt<T>(fn: nat -> Call<T>, condition: string -> bool, retries: nat): JavaTrace<T>
    decreases JAVA_MAX_RETRIES - retries
  {
    if retries >= JAVA_MAX_RETRIES then JavaTrace(Err("Retries exceeded"), [], retries)
    else match fn(retries)
      case Returned(v) => JavaTrace(Ok(v), [], retries + 1)
      case Threw(m) =>
        if condition(m) then
          var rest := Attempt(fn, condition, retries + 1);
          JavaTrace(rest.result, [JavaWait(retries)] + rest.waits, rest.calls)
        else JavaTrace(Err("Not retryable: " + m), [], retries + 1)
  }

  /** `exponentialBackoff`: calls `fn` until it returns, sleeping
      `2^retries * 1000` ms after each failure the condition accepts, and
      fails at once on any other failure and after fifteen accepted ones. */
  method ExponentialBackoff<T>(fn: nat -> Call<T>, condition: string -> bool) returns (r: Result<T, string>, waits: seq<nat>, calls: nat)
    ensures r == Attempt(fn, condition, 0).result
    ensures waits == Attempt(fn, condition, 0).waits
    ensures calls == Attempt(fn, condition, 0).calls
    ensures calls <= JAVA_MAX_RETRIES
  {
    ghost var full := Attempt(fn, condition, 0);
    var retries := 0;
    waits := [];
    calls := 0;
    while retries < JAVA_MAX_RETRIES
      invariant retries <= JAVA_MAX_RETRIES && calls == retries
      invariant RunFrom(fn, condition, full, waits, retries)
      decreases JAVA_MAX_RETRIES - retries
    {
      var outcome := fn(retries);
      calls := calls + 1;
      match outcome {
        case Returned(v) =>
          ReturnedStep(fn, condition, full, waits, retries);
          r := Ok(v);
          return;
        case Threw(m) =>
          if condition(m) {
            RetriedStep(fn, condition, full, waits, retries);
            waits := waits + [JavaWait(retries)];
            retries := retries + 1;
          } else {
            RefusedStep(fn, condition, full, waits, retries);
            r := Err("Not retryable: " + m);
            return;
          }
      }
    }
    ExhaustedStep(fn, condition, full, waits, retries);
    r := Err("Retries exceeded");
  }

  /** The loop invariant: the run from call `retries` on, after the delays
      `waits`, makes up the whole run `full`. */
  ghost predicate RunFrom<T>(fn: nat -> Call<T>, condition: string -> bool, full: JavaTrace<T>, waits: seq<nat>, retries: nat) {
    && full.result == Attempt(fn, condition, retries).result
    && full.waits == waits + Attempt(fn, condition, retries).waits
    && full.calls == Attempt(fn, condition, retries).calls
  }

  lemma ReturnedStep<T>(fn: nat -> Call<T>, condition: string -> bool, full: JavaTrace<T>, waits: seq<nat>, j: nat)
    requires j < JAVA_MAX_RETRIES && fn(j).Returned? && RunFrom(fn, condition, full, waits, j)
    ensures full == JavaTrace(Ok(fn(j).value), waits, j + 1)
  {
    AttemptUnfold(fn, condition, j);
    assert waits + [] == waits;
  }

  lemma RefusedStep<T>(fn: nat -> Call<T>, condition: string -> bool, full: JavaTrace<T>, waits: seq<nat>, j: nat)
    requires j < JAVA_MAX_RETRIES && fn(j).Threw? && !condition(fn(j).message) && RunFrom(fn, condition, full, waits, j)
    ensures full == JavaTrace(Err("Not retryable: " + fn(j).message), waits, j + 1)
  {
    AttemptUnfold(fn, condition, j);
    assert waits + [] == waits;
  }

  lemma RetriedStep<T>(fn: nat -> Call<T>, condition: string -> bool, full: JavaTrace<T>, waits: seq<nat>, j: nat)
    requires j < JAVA_MAX_RETRIES && RetryableAt(fn, condition, j) && RunFrom(fn, condition, full, waits, j)
    ensures RunFrom(fn, condition, full, waits + [JavaWait(j)], j + 1)
  {
    AttemptUnfold(fn, condition, j);
    WaitsAssoc(waits, JavaWait(j), Attempt(fn, condition, j + 1).waits);
  }

  lemma ExhaustedStep<T>(fn: nat -> Call<T>, condition: string -> bool, full: JavaTrace<T>, waits: seq<nat>, j: nat)
    requires j == JAVA_MAX_RETRIES && RunFrom(fn, condition, full, waits, j)
    ensures full == JavaTrace(Err("Retries exceeded"), waits, j)
  {
    assert waits + [] == waits;
  }

  /** One call of a run not yet out of retries. */
  lemma AttemptUnfold<T>(fn: nat -> Call<T>, condition: string -> bool, j: nat)
    requires j < JAVA_MAX_RETRIES
    ensures fn(j).Returned? ==> Attempt(fn, condition, j) == JavaTrace(Ok(fn(j).value), [], j + 1)
    ensures fn(j).Threw? && !condition(fn(j).message) ==>
      Attempt(fn, condition, j) == JavaTrace(Err("Not retryable: " + fn(j).message), [], j + 1)
    ensures RetryableAt(fn, condition, j) ==>
      Attempt(fn, condition, j)
      == JavaTrace(Attempt(fn, condition, j + 1).result, [JavaWait(j)] + Attempt(fn, condition, j + 1).waits,
                   Attempt(fn, condition, j + 1).calls)
  {
  }

  lemma WaitsAssoc(u: seq<nat>, x: nat, w: seq<nat>)
    ensures u + ([x] + w) == (u + [x]) + w
  {
  }

  lemma ConsWaits(x: nat, u: seq<nat>, w: seq<nat>)
    ensures [x] + (u + w) == ([x] + u) + w
  {
  }

  /** `w` are the delays after calls `j`, `j + 1`, ..., each `2^i * 1000` ms
      and each after a failure the condition accepts. */
  predicate WaitsFrom<T>(fn: nat -> Call<T>, condition: string -> bool, j: nat, w: seq<nat>) {
    forall i :: 0 <= i < |w| ==> w[i] == JavaWait(j + i) && RetryableAt(fn, condition, j + i)
  }

  /** Every run makes at most fifteen calls; the i-th delay is `2^i * 1000`
      ms and follows a failure the condition accepts. */
  lemma AttemptBounds<T>(fn: nat -> Call<T>, condition: string -> bool, j: nat)
    requires j <= JAVA_MAX_RETRIES
    ensures j <= Attempt(fn, condition, j).calls <= JAVA_MAX_RETRIES
    ensures |Attempt(fn, condition, j).waits| <= JAVA_MAX_RETRIES - j
    ensures WaitsFrom(fn, condition, j, Attempt(fn, condition, j).waits)
  {
    AttemptCalls(fn, condition, j);
    AttemptWaits(fn, condition, j);
  }

  lemma {:induction false} AttemptCalls<T>(fn: nat -> Call<T>, condition: string -> bool, j: nat)
    requires j <= JAVA_MAX_RETRIES
    ensures j <= Attempt(fn, condition, j).calls <= JAVA_MAX_RETRIES
    ensures |Attempt(fn, condition, j).waits| <= JAVA_MAX_RETRIES - j
    decreases JAVA_MAX_RETRIES - j
  {
    if j < JAVA_MAX_RETRIES {
      if RetryableAt(fn, condition, j) {
        AttemptCalls(fn, condition, j + 1);
      }
      AttemptUnfold(fn, condition, j);
    }
  }

  lemma {:induction false} AttemptWaits<T>(fn: nat -> Call<T>, condition: string -> bool, j: nat)
    requires j <= JAVA_MAX_RETRIES
    ensures WaitsFrom(fn, condition, j, Attempt(fn, condition, j).waits)
    decreases JAVA_MAX_RETRIES - j
  {
    if j < JAVA_MAX_RETRIES {
      AttemptUnfold(fn, condition, j);
      if RetryableAt(fn, condition, j) {
        var w := Attempt(fn, condition, j + 1).waits;
        AttemptWaits(fn, condition, j + 1);
        RetryableWaits(fn, condition, j, w);
        assert Attempt(fn, condition, j).waits == [JavaWait(j)] + w;
      } else {
        assert Attempt(fn, condition, j).waits == [];
      }
    }
  }

  /** The delays from call `j + 1` on, preceded by the one after call `j`. */
  lemma RetryableWaits<T>(fn: nat -> Call<T>, condition: string -> bool, j: nat, w: seq<nat>)
    requires RetryableAt(fn, condition, j) && WaitsFrom(fn, condition, j + 1, w)
    ensures WaitsFrom(fn, condition, j, [JavaWait(j)] + w)
  {
    forall i | 0 <= i < |w| + 1 ensures ([JavaWait(j)] + w)[i] == JavaWait(j + i) && RetryableAt(fn, condition, j + i) {
      if i > 0 {
        assert ([JavaWait(j)] + w)[i] == w[i - 1];
        assert j + 1 + (i - 1) == j + i;
      }
    }
  }

  /** Accepted failures from call `j` to call `k - 1` only add their delays. */
  lemma {:induction false} AttemptPrefix<T>(fn: nat -> Call<T>, condition: string -> bool, j: nat, k: nat)
    requires j <= k <= JAVA_MAX_RETRIES
    requires forall i :: j <= i < k ==> RetryableAt(fn, condition, i)
    ensures Attempt(fn, condition, j)
         == JavaTrace(Attempt(fn, condition, k).result, WaitRange(j, k) + Attempt(fn, condition, k).waits, Attempt(fn, condition, k).calls)
    decreases k - j
  {
    if j < k {
      AttemptPrefix(fn, condition, j + 1, k);
      assert RetryableAt(fn, condition, j);
      AttemptUnfold(fn, condition, j);
      assert WaitRange(j, k) == [JavaWait(j)] + WaitRange(j + 1, k);
      ConsWaits(JavaWait(j), WaitRange(j + 1, k), Attempt(fn, condition, k).waits);
    }
  }

  /** The first value returned wins, after the delays of the failures before it. */
  lemma JavaFirstReturnWins<T>(fn: nat -> Call<T>, condition: string -> bool, k: nat, v: T)
    requires k < JAVA_MAX_RETRIES && fn(k) == Returned(v)
    requires forall i :: 0 <= i < k ==> RetryableAt(fn, condition, i)
    ensures Attempt(fn, condition, 0) == JavaTrace(Ok(v), WaitRange(0, k), k + 1)
  {
    AttemptPrefix(fn, condition, 0, k);
    assert WaitRange(0, k) + [] == WaitRange(0, k);
  }

  /** A failure the condition rejects ends the run at once, with no delay. */
  lemma NotRetryableFailsAtOnce<T>(fn: nat -> Call<T>, condition: string -> bool, k: nat, m: string)
    requires k < JAVA_MAX_RETRIES && fn(k) == Threw(m) && !condition(m)
    requires forall i :: 0 <= i < k ==> RetryableAt(fn, condition, i)
    ensures Attempt(fn, condition, 0) == JavaTrace(Err("Not retryable: " + m), WaitRange(0, k), k + 1)
  {
    AttemptPrefix(fn, condition, 0, k);
    assert WaitRange(0, k) + [] == WaitRange(0, k);
  }

  /** Fifteen accepted failures give up after fifteen delays: the last
      delay, 2^14 * 1000 ms, is slept although no call follows it. */
  lemma RetriesExceeded<T>(fn: nat -> Call<T>, condition: string -> bool)
    requires forall i :: 0 <= i < JAVA_MAX_RETRIES ==> RetryableAt(fn, condition, i)
    ensures Attempt(fn, condition, 0) == JavaTrace(Err("Retries exceeded"), WaitRange(0, JAVA_MAX_RETRIES), JAVA_MAX_RETRIES)
    ensures WaitRange(0, JAVA_MAX_RETRIES)[JAVA_MAX_RETRIES - 1] == 16384000
  {
    assert Attempt(fn, condition, 0) == JavaTrace(Err("Retries exceeded"), WaitRange(0, JAVA_MAX_RETRIES), JAVA_MAX_RETRIES) by {
      AttemptPrefix(fn, condition, 0, JAVA_MAX_RETRIES);
      assert WaitRange(0, JAVA_MAX_RETRIES) + [] == WaitRange(0, JAVA_MAX_RETRIES);
    }
    assert WaitRange(0, JAVA_MAX_RETRIES)[JAVA_MAX_RETRIES - 1] == JavaWait(14);
    LastJavaWait();
  }

  lemma LastJavaWait()
    ensures JavaWait(14) == 16384000
  {
    assert Backoff.Pow2(14) == 16384;
  }

  // The scraper object

  /** A page as its markup text. */
  type Html = string

  /** The network as one load sees it: `net(url)(i)` is what the i-th
      connection attempt to `url` gives. Every load opens new connections, so
      every load is given its own `Network`. */
  type Network = string -> nat -> Call<Html>

  /** `loadDocument`: the loaded page, or the previous one when the load
      fails (the `IOException` is logged only). */
  function Loaded(net: Network, url: string, previous: Option<Html>): (r: Option<Html>)
    ensures Attempt(net(url), RetryCondition, 0).result.Ok? ==> r == Some(Attempt(net(url), RetryCondition, 0).result.value)
    ensures Attempt(net(url), RetryCondition, 0).result.Err? ==> r == previous
  {
    match Attempt(net(url), RetryCondition, 0).result
    case Ok(page) => Some(page)
    case Err(_) => previous
  }

  class Scraper {
    var doc: Option<Html>
    var scrapeUrl: string

    /** The private constructor: records the URL and loads it over `net`. */
    constructor (initialUrl: string, net: Network)
      ensures scrapeUrl == initialUrl && doc == Loaded(net, initialUrl, None)
    {
      scrapeUrl := initialUrl;
      doc := None;
      new;
      LoadDocument(net);
    }

    method LoadDocument(net: Network)
      modifies this
      ensures scrapeUrl == old(scrapeUrl)
      ensures doc == Loaded(net, scrapeUrl, old(doc))
    {
      var page, waits, calls := ExponentialBackoff(net(scrapeUrl), RetryCondition);
      if page.Ok? {
        doc := Some(page.value);
      }
    }

    /** `updateScrapeUrl`: the new URL is recorded and loaded over `net`; a
        failed load keeps the page of the old URL. */
    method UpdateScrapeUrl(newUrl: string, net: Network)
      modifies this
      ensures scrapeUrl == newUrl
      ensures doc == Loaded(net, newUrl, old(doc))
    {
      scrapeUrl := newUrl;
      LoadDocument(net);
    }

    /** `getElement`: the first element the selector finds, an
        `IllegalStateException` when no page was ever loaded. */
    method GetElement(selector: string, selectFirst: (Html, string) -> Option<string>) returns (r: Result<Option<string>, string>)
      ensures doc.None? ==> r == Err("Document must be loaded to select elements.")
      ensures doc.Some? ==> r == Ok(selectFirst(doc.value, selector))
    {
      if doc.None? {
        return Err("Document must be loaded to select elements.");
      }
      return Ok(selectFirst(doc.value, selector));
    }
  }

  /** The static `scraper` reference of the class. */
  class ScraperHolder {
    var instance: Option<Scraper>

    constructor ()
      ensures instance.None?
    {
      instance := None;
    }

    /** `getInstance(initialUrl)`: the first call creates the scraper, which
        loads the URL over `createNet`, and then, like every later call,
        updates the URL and loads it again over `net`; every call returns the
        one instance. A later call does not use `createNet`. */
    method GetInstance(initialUrl: string, createNet: Network, net: Network) returns (s: Scraper)
      modifies this, if instance.Some? then {instance.value} else {}
      ensures old(instance).Some? ==> s == old(instance).value
      ensures old(instance).None? ==> fresh(s)
      ensures instance == Some(s)
      ensures s.scrapeUrl == initialUrl
      ensures old(instance).Some? ==> s.doc == Loaded(net, initialUrl, old(instance.value.doc))
      ensures old(instance).None? ==> s.doc == Loaded(net, initialUrl, Loaded(createNet, initialUrl, None))
    {
      if instance.None? {
        var created := new Scraper(initialUrl, createNet);
        instance := Some(created);
      }
      s := instance.value;
      s.UpdateScrapeUrl(initialUrl, net);
    }

    /** `getInstance()`: an `IllegalStateException` before the first call with a URL. */
    method CurrentInstance() returns (r: Result<Scraper, string>)
      ensures instance.None? ==> r == Err("Scraper instance must be initialized with an initial URL.")
      ensures instance.Some? ==> r == Ok(instance.value)
    {
      if instance.None? {
        return Err("Scraper instance must be initialized with an initial URL.");
      }
      return Ok(instance.value);
    }
  }

  /** The first `getInstance` holds the page of its second load when that
      succeeds, else the page of its first load when that succeeds, else
      no page: a failed first load is made good by a successful second one. */
  lemma FirstInstancePage(createNet: Network, net: Network, url: string)
    ensures var first := Attempt(createNet(url), RetryCondition, 0).result;
      var second := Attempt(net(url), RetryCondition, 0).result;
      Loaded(net, url, Loaded(createNet, url, None))
        == if second.Ok? then Some(second.value) else if first.Ok? then Some(first.value) else None
  {
  }

  // Reading numbers

  /** `1234,56`, read as a `Double`. */
  lemma Plain1234() returns (v: string)
    ensures v == "1234,56"
    ensures ConvertTextToType(v, DoubleType) == Some(DoubleValue(Finite(1234.56)))
  {
    var g, f := Parts1234();
    v := g + "," + f;
    JavaItalianDecimal(g, f);
  }

  lemma Parts1234() returns (g: string, f: string)
    ensures g == "1234" && f == "56" && GroupedInteger(g) && AllDigits(f)
    ensures Parsers.WholeDigits(g) == g && DecimalValue(g, f) == 1234.56
  {
    g, f := "1234", "56";
    Parsers.GroupedPlain();
    Parsers.DecimalExamples();
    Digits56(f);
  }

  lemma Digits56(f: string)
    requires f == "56"
    ensures AllDigits(f)
  {
    assert IsDigit(f[0]) && IsDigit(f[1]);
  }
  /** `1.234` is read as the whole number 1234. */
  lemma Thousand234(g: string)
    requires g == "1.234"
    ensures ConvertTextToType(g, DoubleType) == Some(DoubleValue(Finite(1234.0)))
  {
    assert GroupedInteger(g) && Parsers.WholeDigits(g) == "1234" by { Parsers.GroupedThousands(); }
    assert DigitsValue("1234") == 1234 by { Parsers.DecimalExamples(); }
    JavaWhole(g);
  }


  /** A grouped integer such as `1.234` is read as the integer it spells. */
  lemma JavaWhole(g: string)
    requires GroupedInteger(g)
    ensures ConvertTextToType(g, DoubleType) == Some(DoubleValue(Finite(DigitsValue(Parsers.WholeDigits(g)) as real)))
  {
    var w := Parsers.WholeDigits(g);
    assert ConvertDouble(g) == JavaDoubleValueOf(w) by { Parsers.NormalizeWhole(g); }
    DigitsDouble(w);
  }

  /** A string of digits is read as the integer it spells. */
  lemma DigitsWhole(w: string)
    requires w != [] && AllDigits(w)
    ensures ConvertTextToType(w, DoubleType) == Some(DoubleValue(Finite(DigitsValue(w) as real)))
  {
    assert ConvertDouble(w) == JavaDoubleValueOf(w) by { WholeDigitsPattern(w); }
    DigitsDouble(w);
  }

  /** `Double.valueOf` reads a string of digits as the integer it spells. */
  lemma DigitsDouble(w: string)
    requires w != [] && AllDigits(w)
    ensures JavaDoubleValueOf(w) == Some(Finite(DigitsValue(w) as real))
  {
    assert IsDigit(w[0]) && IsDigit(w[|w| - 1]);
    assert JavaTrim(w) == w;
    assert w != "NaN" && w != "Infinity" by { assert w[0] != 'N' && w[0] != 'I'; }
    assert !(w[|w| - 1] in "fFdD");
    ParseDigits(w);
  }

  /** Digits alone match the thousands pattern and lose nothing to it. */
  lemma WholeDigitsPattern(w: string)
    requires w != [] && AllDigits(w)
    ensures Parsers.Normalize(w) == w
  {
    forall i | 0 <= i < |w| ensures w[i] != ',' && w[i] != '.' {
      assert IsDigit(w[i]);
    }
    RemoveCharAbsent(w, ',');
    RemoveCharAbsent(w, '.');
    ReplaceCharAbsent(w, ',', '.');
  }

  /** `x.f` with one or two decimals is no thousands pattern and is read as the decimal it is. */
  lemma ShortFraction(x: string, f: string)
    requires x != [] && AllDigits(x) && AllDigits(f) && 1 <= |f| <= 2
    ensures ConvertTextToType(x + "." + f, DoubleType) == Some(DoubleValue(Finite(DecimalValue(x, f))))
  {
    var s := x + "." + f;
    NotThousands(x, f);
    forall i | 0 <= i < |s| ensures s[i] != ',' {
      if i < |x| { assert s[i] == x[i]; } else if i > |x| { assert s[i] == f[i - |x| - 1]; }
    }
    RemoveCharAbsent(s, ',');
    JavaReadPointed(x, f);
  }

  lemma NotThousands(x: string, f: string)
    requires x != [] && AllDigits(x) && AllDigits(f) && 1 <= |f| <= 2
    ensures !MatchesThousandsPattern(x + "." + f)
  {
    var s := x + "." + f;
    forall k | 1 <= k <= 3 && k <= |s| ensures !AllDigits(s[..k]) || !GroupTail(s[k..]) {
      if k <= |x| {
        assert s[k..] == x[k..] + "." + f;
        NoGroupTail(x[k..], f);
      } else {
        assert s[..k][|x|] == '.';
      }
    }
  }

  /** `y.f`, with `y` digits and one or two decimals, is no `(\.?\d{3})*(,\d+)?`. */
  lemma {:induction false} NoGroupTail(y: string, f: string)
    requires AllDigits(y) && AllDigits(f) && 1 <= |f| <= 2
    ensures !GroupTail(y + "." + f)
    decreases |y|
  {
    var t := y + "." + f;
    if |y| >= 3 {
      assert t[3..] == y[3..] + "." + f;
      NoGroupTail(y[3..], f);
    } else if |t| >= 3 {
      assert t[..3][|y|] == '.';
    }
    if y == [] {
      assert t[0] == '.' && |t| <= 3;
    } else {
      assert t[0] == y[0];
    }
  }
}
