/** Calendar dates and times of day as the scraper reads them: chrono's
    `parse_from_str` with the formats `%d/%m/%y`, `%d/%m/%y %H.%M.%S` and
    `%d/%m/%y - %H.%M.%S`, and Java's `DateTimeFormatter` with the patterns
    `dd/MM/yy` and `dd/MM/yy - H.mm.ss` (default SMART resolver).

    A date keeps its two-digit year; the century (chrono: 1970-2069, Java:
    2000-2099) is not modelled. Under both mappings a year is a leap year
    exactly when its last two digits are a multiple of four. */
module Dates {
  import opened Common
  import opened Numbers

  datatype Date = Date(day: nat, month: nat, yy: nat)
  datatype Time = Time(hour: nat, minute: nat, second: nat)
  datatype DateTime = DateTime(date: Date, time: Time)

  /** `NaiveDate::default()`, 1970-01-01. */
  const DefaultDate: Date := Date(1, 1, 70)
  /** `NaiveDateTime::default()`, 1970-01-01 00:00:00. */
  const DefaultDateTime: DateTime := DateTime(DefaultDate, Time(0, 0, 0))

  function DaysInMonth(month: nat, yy: nat): (r: nat)
    ensures 1 <= month <= 12 ==> 28 <= r <= 31
  {
    if month == 2 then (if yy % 4 == 0 then 29 else 28)
    else if month == 4 || month == 6 || month == 9 || month == 11 then 30
    else 31
  }

  predicate ValidDate(d: Date) {
    d.yy < 100 && 1 <= d.month <= 12 && 1 <= d.day <= DaysInMonth(d.month, d.yy)
  }

  /** chrono accepts a 60th second (a leap second). */
  predicate ChronoValidTime(t: Time) {
    t.hour < 24 && t.minute < 60 && t.second <= 60
  }

  predicate JavaValidTime(t: Time) {
    t.hour < 24 && t.minute < 60 && t.second < 60
  }

  /** The number of leading ASCII digits of `s`, at most `max`. */
  function LeadingDigits(s: string, max: nat): (k: nat)
    ensures k <= max && k <= |s|
    ensures AllDigits(s[..k])
    ensures k < max && k < |s| ==> !IsDigit(s[k])
  {
    if max == 0 || s == [] || !IsDigit(s[0]) then 0
    else
      var k := 1 + LeadingDigits(s[1..], max - 1);
      assert s[..k] == [s[0]] + s[1..][..k - 1];
      k
  }

  // chrono

  /** A parsed `strftime` item: a numeric field of at most `width` digits, a
      literal character, or a run of white space in the format. */
  datatype ChronoItem = Number(width: nat) | Literal(c: char) | Space

  function ChronoNumbers(items: seq<ChronoItem>): nat {
    if items == [] then 0 else (if items[0].Number? then 1 else 0) + ChronoNumbers(items[1..])
  }

  /** chrono's scanner: white space in the format matches any run of white
      space (also none); a numeric field skips leading white space and reads
      one to `width` digits; a literal must match; the whole input must be
      consumed. The result lists the numeric fields in order. */
  function ChronoScan(s: string, items: seq<ChronoItem>): (r: Option<seq<nat>>)
    ensures r.Some? ==> |r.value| == ChronoNumbers(items)
    decreases |items|
  {
    if items == [] then (if s == [] then Some([]) else None)
    else match items[0] {
      case Space => ChronoScan(TrimStart(s), items[1..])
      case Literal(c) => if s != [] && s[0] == c then ChronoScan(s[1..], items[1..]) else None
      case Number(width) =>
        var t := TrimStart(s);
        var k := LeadingDigits(t, width);
        if k == 0 then None
        else match ChronoScan(t[k..], items[1..]) {
          case None => None
          case Some(vs) => Some([DigitsValue(t[..k])] + vs)
        }
    }
  }

  /** `%d/%m/%y` */
  const ChronoDate: seq<ChronoItem> := [Number(2), Literal('/'), Number(2), Literal('/'), Number(2)]
  /** `%d/%m/%y %H.%M.%S` */
  const ChronoSpaced: seq<ChronoItem> :=
    [Number(2), Literal('/'), Number(2), Literal('/'), Number(2), Space,
     Number(2), Literal('.'), Number(2), Literal('.'), Number(2)]
  /** `%d/%m/%y - %H.%M.%S` */
  const ChronoDashed: seq<ChronoItem> :=
    [Number(2), Literal('/'), Number(2), Literal('/'), Number(2), Space, Literal('-'), Space,
     Number(2), Literal('.'), Number(2), Literal('.'), Number(2)]

  /** `NaiveDate::parse_from_str(s, "%d/%m/%y")`. */
  function ChronoParseDate(s: string): (r: Option<Date>)
    ensures r.Some? ==> ValidDate(r.value)
  {
    match ChronoScan(s, ChronoDate)
    case None => None
    case Some(v) =>
      var d := Date(v[0], v[1], v[2]);
      if ValidDate(d) then Some(d) else None
  }

  /** chrono's validation of the six numbers of a date-time. */
  function ChronoDateTimeOf(v: seq<nat>): (r: Option<DateTime>)
    requires |v| == 6
    ensures r.Some? <==> ValidDate(Date(v[0], v[1], v[2])) && ChronoValidTime(Time(v[3], v[4], v[5]))
    ensures r.Some? ==> r.value == DateTime(Date(v[0], v[1], v[2]), Time(v[3], v[4], v[5]))
  {
    var dt := DateTime(Date(v[0], v[1], v[2]), Time(v[3], v[4], v[5]));
    if ValidDate(dt.date) && ChronoValidTime(dt.time) then Some(dt) else None
  }

  /** `NaiveDateTime::parse_from_str(s, fmt)` for one of the two date-time formats. */
  function ChronoParseDateTime(s: string, dashed: bool): (r: Option<DateTime>)
    ensures r.Some? ==> ValidDate(r.value.date) && ChronoValidTime(r.value.time)
  {
    var items := if dashed then ChronoDashed else ChronoSpaced;
    ChronoDateTimeCount(dashed);
    match ChronoScan(s, items)
    case None => None
    case Some(v) => ChronoDateTimeOf(v)
  }

  // Java

  /** A `DateTimeFormatter` pattern piece: a number of `min` to `max` digits
      (`dd`, `MM`, `yy`, `mm` and `ss` are exactly two, `H` one to nineteen),
      or a literal character. */
  datatype JavaItem = Digits(min: nat, max: nat) | Char(c: char)

  function JavaNumbers(items: seq<JavaItem>): nat {
    if items == [] then 0 else (if items[0].Digits? then 1 else 0) + JavaNumbers(items[1..])
  }

  /** Strict parsing against a pattern: each number takes as many digits as
      it may, each literal must match, and the whole input is consumed. */
  function JavaScan(s: string, items: seq<JavaItem>): (r: Option<seq<nat>>)
    ensures r.Some? ==> |r.value| == JavaNumbers(items)
    decreases |items|
  {
    if items == [] then (if s == [] then Some([]) else None)
    else match items[0] {
      case Char(c) => if s != [] && s[0] == c then JavaScan(s[1..], items[1..]) else None
      case Digits(min, max) =>
        var k := LeadingDigits(s, max);
        if k == 0 || k < min then None
        else match JavaScan(s[k..], items[1..]) {
          case None => None
          case Some(vs) => Some([DigitsValue(s[..k])] + vs)
        }
    }
  }

  /** `dd/MM/yy` */
  const JavaDate: seq<JavaItem> := [Digits(2, 2), Char('/'), Digits(2, 2), Char('/'), Digits(2, 2)]
  /** `dd/MM/yy - H.mm.ss` */
  const JavaDashed: seq<JavaItem> :=
    [Digits(2, 2), Char('/'), Digits(2, 2), Char('/'), Digits(2, 2), Char(' '), Char('-'), Char(' '),
     Digits(1, 19), Char('.'), Digits(2, 2), Char('.'), Digits(2, 2)]

  lemma ChronoDateCount()
    ensures ChronoNumbers(ChronoDate) == 3
  {
  }

  /** Both chrono date-time formats have six numeric fields. */
  lemma ChronoDateTimeCount(dashed: bool)
    ensures ChronoNumbers(if dashed then ChronoDashed else ChronoSpaced) == 6
  {
    if dashed {
      assert ChronoNumbers(ChronoDashed) == 6;
    } else {
      assert ChronoNumbers(ChronoSpaced) == 6;
    }
  }

  lemma JavaDateCount()
    ensures JavaNumbers(JavaDate) == 3
  {
  }

  lemma JavaDashedCount()
    ensures JavaNumbers(JavaDashed) == 6
  {
  }

  /** The SMART resolver: month 1-12 and day 1-31 are range-checked, then a
      day past the end of the month becomes the month's last day. */
  function JavaResolveDate(day: nat, month: nat, yy: nat): (r: Option<Date>)
    requires yy < 100
    ensures r.Some? ==> ValidDate(r.value) && r.value.month == month && r.value.yy == yy
    ensures r.Some? <==> 1 <= month <= 12 && 1 <= day <= 31
    ensures r.Some? && day <= DaysInMonth(month, yy) ==> r.value.day == day
    ensures r.Some? && day > DaysInMonth(month, yy) ==> r.value.day == DaysInMonth(month, yy)
  {
    if 1 <= month <= 12 && 1 <= day <= 31 then
      Some(Date(if day <= DaysInMonth(month, yy) then day else DaysInMonth(month, yy), month, yy))
    else None
  }

  /** `LocalDate.parse(s, ofPattern("dd/MM/yy"))`; `None` is the `DateTimeParseException`. */
  function JavaParseDate(s: string): (r: Option<Date>)
    ensures r.Some? ==> ValidDate(r.value)
  {
    match JavaScan(s, JavaDate)
    case None => None
    case Some(v) =>
      assert DigitsValue(s[6..8]) < 100 ==> v[2] < 100;
      if v[2] < 100 then JavaResolveDate(v[0], v[1], v[2]) else None
  }

  /** The day after `d`. The day after 31/12/99 lies in the year 2100,
      outside the two-digit years of this model, and is `None`. */
  function NextDay(d: Date): (r: Option<Date>)
    requires ValidDate(d)
    ensures r.None? <==> d == Date(31, 12, 99)
    ensures r.Some? ==> ValidDate(r.value)
    ensures r.Some? && d.day < DaysInMonth(d.month, d.yy) ==> r.value == d.(day := d.day + 1)
    ensures r.Some? && d.day == DaysInMonth(d.month, d.yy) && d.month < 12 ==> r.value == Date(1, d.month + 1, d.yy)
    ensures r.Some? && d.day == DaysInMonth(d.month, d.yy) && d.month == 12 ==> r.value == Date(1, 1, d.yy + 1)
  {
    if d.day < DaysInMonth(d.month, d.yy) then Some(d.(day := d.day + 1))
    else if d.month < 12 then Some(Date(1, d.month + 1, d.yy))
    else if d.yy < 99 then Some(Date(1, 1, d.yy + 1))
    else None
  }

  /** Java's validation of the six numbers of a date-time. The SMART
      resolver reads the hour 24 with zero minutes and seconds as midnight
      at the end of the day: midnight of the next day. */
  function JavaDateTimeOf(v: seq<nat>): (r: Option<DateTime>)
    requires |v| == 6
    ensures r.Some? ==> ValidDate(r.value.date) && JavaValidTime(r.value.time)
    ensures r.Some? ==> v[2] < 100 && JavaResolveDate(v[0], v[1], v[2]).Some?
    ensures v[3] < 24 && r.Some? ==> r.value.time == Time(v[3], v[4], v[5])
    ensures v[3] < 24 && r.Some? ==> r.value.date == JavaResolveDate(v[0], v[1], v[2]).value
    ensures v[3] == 24 && r.Some? ==> r.value.time == Time(0, 0, 0)
    ensures v[3] == 24 && r.Some? ==> Some(r.value.date) == NextDay(JavaResolveDate(v[0], v[1], v[2]).value)
    ensures v[3] == 24 && (v[4] != 0 || v[5] != 0) ==> r.None?
    ensures v[3] > 24 ==> r.None?
  {
    var t := Time(v[3], v[4], v[5]);
    if v[2] >= 100 then None
    else if v[3] == 24 && v[4] == 0 && v[5] == 0 then
      match JavaResolveDate(v[0], v[1], v[2]) {
        case None => None
        case Some(d) =>
          match NextDay(d) {
            case None => None
            case Some(n) => Some(DateTime(n, Time(0, 0, 0)))
          }
      }
    else if JavaValidTime(t) then
      match JavaResolveDate(v[0], v[1], v[2]) {
        case None => None
        case Some(d) => Some(DateTime(d, t))
      }
    else None
  }

  /** `24.00.00` is midnight of the next day, and there is no other hour 24. */
  lemma JavaEndOfDay(d: Date, minute: nat, second: nat)
    requires ValidDate(d) && d != Date(31, 12, 99)
    ensures JavaDateTimeOf([d.day, d.month, d.yy, 24, 0, 0]) == Some(DateTime(NextDay(d).value, Time(0, 0, 0)))
    ensures minute != 0 || second != 0 ==> JavaDateTimeOf([d.day, d.month, d.yy, 24, minute, second]).None?
  {
  }

  /** A valid date at a time before `24.00.00` resolves to itself. */
  lemma JavaWithinDay(dt: DateTime)
    requires ValidDate(dt.date) && JavaValidTime(dt.time)
    ensures JavaDateTimeOf([dt.date.day, dt.date.month, dt.date.yy, dt.time.hour, dt.time.minute, dt.time.second]) == Some(dt)
  {
    assert JavaResolveDate(dt.date.day, dt.date.month, dt.date.yy) == Some(dt.date);
  }

  /** `LocalDateTime.parse(s, ofPattern("dd/MM/yy - H.mm.ss"))`. */
  function JavaParseDateTime(s: string): (r: Option<DateTime>)
    ensures r.Some? ==> ValidDate(r.value.date) && JavaValidTime(r.value.time)
  {
    JavaDashedCount();
    match JavaScan(s, JavaDashed)
    case None => None
    case Some(v) => JavaDateTimeOf(v)
  }

  // Formatting: the inverse of the parsers on valid values.

  /** A number below 100, zero-padded to two digits. */
  function Pad2(n: nat): (r: string)
    requires n < 100
    ensures |r| == 2 && AllDigits(r) && DigitsValue(r) == n
  {
    var r := [DigitChar(n / 10), DigitChar(n % 10)];
    assert r[..1] == [DigitChar(n / 10)];
    r
  }

  predicate Below100(vs: seq<nat>) {
    forall i :: 0 <= i < |vs| ==> vs[i] < 100
  }

  lemma Below100Six(a: nat, b: nat, c: nat, d: nat, e: nat, f: nat)
    requires a < 100 && b < 100 && c < 100 && d < 100 && e < 100 && f < 100
    ensures Below100([a, b, c, d, e, f])
  {
  }

  /** Writes `vs` into the format: numbers zero-padded to two digits, white
      space as one blank. */
  function ChronoRender(items: seq<ChronoItem>, vs: seq<nat>): string
    requires |vs| == ChronoNumbers(items) && Below100(vs)
    decreases |items|
  {
    if items == [] then []
    else match items[0] {
      case Space => " " + ChronoRender(items[1..], vs)
      case Literal(c) => [c] + ChronoRender(items[1..], vs)
      case Number(_) => Pad2(vs[0]) + ChronoRender(items[1..], vs[1..])
    }
  }

  /** A format chrono reads back what `ChronoRender` wrote: numbers at least
      two wide, never two numbers or two blanks in a row, literals neither
      digits nor white space. */
  predicate ChronoReadable(items: seq<ChronoItem>) {
    forall i :: 0 <= i < |items| ==> ChronoReadableAt(items, i)
  }

  predicate ChronoReadableAt(items: seq<ChronoItem>, i: nat)
    requires i < |items|
  {
    (items[i].Number? ==> items[i].width >= 2 && (i + 1 < |items| ==> !items[i + 1].Number?))
    && (items[i].Literal? ==> !IsDigit(items[i].c) && !IsWhitespace(items[i].c))
    && (items[i].Space? ==> (i + 1 < |items| ==> !items[i + 1].Space?))
  }

  lemma ChronoRenderStart(items: seq<ChronoItem>, vs: seq<nat>)
    requires |vs| == ChronoNumbers(items) && Below100(vs) && ChronoReadable(items)
    ensures var s := ChronoRender(items, vs);
      s != [] ==> ((items[0].Number? ==> IsDigit(s[0])) && (!items[0].Number? ==> !IsDigit(s[0]))
                   && (items[0].Literal? ==> !IsWhitespace(s[0])))
  {
    if items != [] {
      assert ChronoReadableAt(items, 0);
      var s := ChronoRender(items, vs);
      match items[0]
      case Number(_) => assert s[0] == Pad2(vs[0])[0];
      case Literal(c) => assert s[0] == c;
      case Space => assert s[0] == ' ';
    }
  }

  lemma ChronoReadableTail(items: seq<ChronoItem>)
    requires items != [] && ChronoReadable(items)
    ensures ChronoReadable(items[1..])
  {
    var rest := items[1..];
    forall i | 0 <= i < |rest| ensures ChronoReadableAt(rest, i) {
      assert ChronoReadableAt(items, i + 1);
      assert rest[i] == items[i + 1];
      if i + 1 < |rest| { assert rest[i + 1] == items[i + 2]; }
    }
  }

  lemma Below100Tail(vs: seq<nat>)
    requires vs != [] && Below100(vs)
    ensures Below100(vs[1..])
  {
    forall i | 0 <= i < |vs| - 1 ensures vs[1..][i] < 100 { assert vs[1..][i] == vs[i + 1]; }
  }

  /** Two padded digits followed by a non-digit are read as one number. */
  lemma ReadPadded(v: nat, tail: string, width: nat)
    requires v < 100 && width >= 2 && (tail == [] || !IsDigit(tail[0]))
    ensures var s := Pad2(v) + tail;
      TrimStart(s) == s && LeadingDigits(s, width) == 2 && s[..2] == Pad2(v) && s[2..] == tail
  {
    var s := Pad2(v) + tail;
    assert s[..2] == Pad2(v) && s[2..] == tail;
    assert IsDigit(s[0]) by { assert s[0] == s[..2][0]; }
    assert IsDigit(s[1]) by { assert s[1] == s[..2][1]; }
  }

  lemma ChronoSkipBlank(tail: string)
    requires tail == [] || !IsWhitespace(tail[0])
    ensures TrimStart(" " + tail) == tail
  {
    assert (" " + tail)[1..] == tail;
  }

  lemma {:induction false} ChronoRoundTrip(items: seq<ChronoItem>, vs: seq<nat>)
    requires |vs| == ChronoNumbers(items) && Below100(vs) && ChronoReadable(items)
    ensures ChronoScan(ChronoRender(items, vs), items) == Some(vs)
    decreases |items|
  {
    if items != [] {
      var rest := items[1..];
      ChronoReadableTail(items);
      match items[0] {
        case Space =>
          ChronoRoundTrip(rest, vs);
          RoundTripSpace(items, vs);
        case Literal(c) =>
          ChronoRoundTrip(rest, vs);
          RoundTripLiteral(items, vs);
        case Number(w) =>
          Below100Tail(vs);
          ChronoRoundTrip(rest, vs[1..]);
          RoundTripNumber(items, vs);
      }
    }
  }

  /** A blank of the format skips the blank it rendered. */
  lemma RoundTripSpace(items: seq<ChronoItem>, vs: seq<nat>)
    requires items != [] && items[0].Space? && |vs| == ChronoNumbers(items) && Below100(vs) && ChronoReadable(items)
    requires ChronoScan(ChronoRender(items[1..], vs), items[1..]) == Some(vs)
    ensures ChronoScan(ChronoRender(items, vs), items) == Some(vs)
  {
    var rest := items[1..];
    var r := ChronoRender(rest, vs);
    assert ChronoRender(items, vs) == " " + r;
    assert r == [] || !IsWhitespace(r[0]) by {
      ChronoReadableTail(items);
      assert ChronoReadableAt(items, 0);
      if rest != [] { ChronoRenderStart(rest, vs); }
    }
    ChronoSkipBlank(r);
  }

  /** A literal of the format matches the character it rendered. */
  lemma RoundTripLiteral(items: seq<ChronoItem>, vs: seq<nat>)
    requires items != [] && items[0].Literal? && |vs| == ChronoNumbers(items) && Below100(vs)
    requires ChronoScan(ChronoRender(items[1..], vs), items[1..]) == Some(vs)
    ensures ChronoScan(ChronoRender(items, vs), items) == Some(vs)
  {
    var r := ChronoRender(items[1..], vs);
    assert ChronoRender(items, vs) == [items[0].c] + r;
    assert ([items[0].c] + r)[1..] == r;
  }

  /** A number of the format reads back the two digits it rendered. */
  lemma RoundTripNumber(items: seq<ChronoItem>, vs: seq<nat>)
    requires items != [] && items[0].Number? && |vs| == ChronoNumbers(items) && Below100(vs) && ChronoReadable(items)
    requires |vs| >= 1 && ChronoNumbers(items[1..]) == |vs| - 1 && Below100(vs[1..])
    requires ChronoScan(ChronoRender(items[1..], vs[1..]), items[1..]) == Some(vs[1..])
    ensures ChronoScan(ChronoRender(items, vs), items) == Some(vs)
  {
    var r := ChronoRender(items[1..], vs[1..]);
    var s := ChronoRender(items, vs);
    NumberFollow(items, vs);
    ReadPadded(vs[0], r, items[0].width);
    ScanNumberAlone(items, s, vs[0], r);
    ConsTail(vs);
  }

  /** What a number of the format renders, and that no digit follows it. */
  lemma NumberFollow(items: seq<ChronoItem>, vs: seq<nat>)
    requires items != [] && items[0].Number? && |vs| == ChronoNumbers(items) && Below100(vs) && ChronoReadable(items)
    requires |vs| >= 1 && ChronoNumbers(items[1..]) == |vs| - 1 && Below100(vs[1..])
    ensures var r := ChronoRender(items[1..], vs[1..]);
            && ChronoRender(items, vs) == Pad2(vs[0]) + r
            && items[0].width >= 2 && (r == [] || !IsDigit(r[0]))
  {
    var rest := items[1..];
    ChronoReadableTail(items);
    assert ChronoReadableAt(items, 0);
    if rest != [] { ChronoRenderStart(rest, vs[1..]); assert !rest[0].Number?; }
  }

  lemma ScanNumberAlone(p: seq<ChronoItem>, s: string, d: nat, u: string)
    requires p != [] && p[0].Number? && |s| >= 2
    requires TrimStart(s) == s && LeadingDigits(s, p[0].width) == 2 && DigitsValue(s[..2]) == d && s[2..] == u
    ensures ChronoScan(s, p) == Prefixed([d], ChronoScan(u, p[1..]))
  {
  }

  function JavaRender(items: seq<JavaItem>, vs: seq<nat>): string
    requires |vs| == JavaNumbers(items) && Below100(vs)
    decreases |items|
  {
    if items == [] then []
    else match items[0] {
      case Char(c) => [c] + JavaRender(items[1..], vs)
      case Digits(_, _) => Pad2(vs[0]) + JavaRender(items[1..], vs[1..])
    }
  }

  /** A pattern that reads back what `JavaRender` wrote. */
  predicate JavaReadable(items: seq<JavaItem>) {
    forall i :: 0 <= i < |items| ==> JavaReadableAt(items, i)
  }

  predicate JavaReadableAt(items: seq<JavaItem>, i: nat)
    requires i < |items|
  {
    (items[i].Digits? ==> items[i].min <= 2 <= items[i].max && (i + 1 < |items| ==> !items[i + 1].Digits?))
    && (items[i].Char? ==> !IsDigit(items[i].c))
  }

  lemma JavaReadableTail(items: seq<JavaItem>)
    requires items != [] && JavaReadable(items)
    ensures JavaReadable(items[1..])
  {
    var rest := items[1..];
    forall i | 0 <= i < |rest| ensures JavaReadableAt(rest, i) {
      assert JavaReadableAt(items, i + 1);
      assert rest[i] == items[i + 1];
      if i + 1 < |rest| { assert rest[i + 1] == items[i + 2]; }
    }
  }

  lemma JavaRenderStart(items: seq<JavaItem>, vs: seq<nat>)
    requires |vs| == JavaNumbers(items) && Below100(vs) && JavaReadable(items)
    requires items != [] && items[0].Char?
    ensures var s := JavaRender(items, vs); s != [] && !IsDigit(s[0])
  {
    assert JavaReadableAt(items, 0);
    assert JavaRender(items, vs)[0] == items[0].c;
  }

  lemma {:induction false} JavaRoundTrip(items: seq<JavaItem>, vs: seq<nat>)
    requires |vs| == JavaNumbers(items) && Below100(vs) && JavaReadable(items)
    ensures JavaScan(JavaRender(items, vs), items) == Some(vs)
    decreases |items|
  {
    if items != [] {
      var rest := items[1..];
      JavaReadableTail(items);
      match items[0] {
        case Char(c) =>
          JavaRoundTrip(rest, vs);
          JavaRoundTripChar(items, vs);
        case Digits(lo, hi) =>
          Below100Tail(vs);
          JavaRoundTrip(rest, vs[1..]);
          JavaRoundTripDigits(items, vs);
      }
    }
  }

  /** A literal of the pattern matches the character it rendered. */
  lemma JavaRoundTripChar(items: seq<JavaItem>, vs: seq<nat>)
    requires items != [] && items[0].Char? && |vs| == JavaNumbers(items) && Below100(vs)
    requires JavaScan(JavaRender(items[1..], vs), items[1..]) == Some(vs)
    ensures JavaScan(JavaRender(items, vs), items) == Some(vs)
  {
    var r := JavaRender(items[1..], vs);
    assert JavaRender(items, vs) == [items[0].c] + r;
    assert ([items[0].c] + r)[1..] == r;
  }

  /** A number of the pattern reads back the two digits it rendered. */
  lemma JavaRoundTripDigits(items: seq<JavaItem>, vs: seq<nat>)
    requires items != [] && items[0].Digits? && |vs| == JavaNumbers(items) && Below100(vs) && JavaReadable(items)
    requires |vs| >= 1 && JavaNumbers(items[1..]) == |vs| - 1 && Below100(vs[1..])
    requires JavaScan(JavaRender(items[1..], vs[1..]), items[1..]) == Some(vs[1..])
    ensures JavaScan(JavaRender(items, vs), items) == Some(vs)
  {
    var r := JavaRender(items[1..], vs[1..]);
    var s := JavaRender(items, vs);
    DigitsFollow(items, vs);
    ReadPadded(vs[0], r, items[0].max);
    JavaScanDigits(items, s, vs[0], r);
    ConsTail(vs);
  }

  /** What a number of the pattern renders, and that no digit follows it. */
  lemma DigitsFollow(items: seq<JavaItem>, vs: seq<nat>)
    requires items != [] && items[0].Digits? && |vs| == JavaNumbers(items) && Below100(vs) && JavaReadable(items)
    requires |vs| >= 1 && JavaNumbers(items[1..]) == |vs| - 1 && Below100(vs[1..])
    ensures var r := JavaRender(items[1..], vs[1..]);
            && JavaRender(items, vs) == Pad2(vs[0]) + r
            && items[0].min <= 2 <= items[0].max && (r == [] || !IsDigit(r[0]))
  {
    var rest := items[1..];
    JavaReadableTail(items);
    assert JavaReadableAt(items, 0);
    if rest != [] { assert !rest[0].Digits?; JavaRenderStart(rest, vs[1..]); }
  }

  lemma JavaScanDigits(p: seq<JavaItem>, s: string, d: nat, u: string)
    requires p != [] && p[0].Digits? && p[0].min <= 2 && |s| >= 2
    requires LeadingDigits(s, p[0].max) == 2 && DigitsValue(s[..2]) == d && s[2..] == u
    ensures JavaScan(s, p) == Prefixed([d], JavaScan(u, p[1..]))
  {
  }

  lemma ConsTail(vs: seq<nat>)
    requires vs != []
    ensures [vs[0]] + vs[1..] == vs
  {
  }

  /** `29/11/24` */
  function FormatDate(d: Date): string
    requires d.day < 100 && d.month < 100 && d.yy < 100
  {
    ChronoRender(ChronoDate, [d.day, d.month, d.yy])
  }

  /** `29/11/24 16.07.46` or, dashed, `29/11/24 - 16.07.46`. */
  function FormatDateTime(dt: DateTime, dashed: bool): string
    requires dt.date.day < 100 && dt.date.month < 100 && dt.date.yy < 100
    requires dt.time.hour < 100 && dt.time.minute < 100 && dt.time.second < 100
  {
    var vs := [dt.date.day, dt.date.month, dt.date.yy, dt.time.hour, dt.time.minute, dt.time.second];
    var items := if dashed then ChronoDashed else ChronoSpaced;
    ChronoDateTimeCount(dashed);
    Below100Six(dt.date.day, dt.date.month, dt.date.yy, dt.time.hour, dt.time.minute, dt.time.second);
    ChronoRender(items, vs)
  }

  lemma ChronoFormatsReadable()
    ensures ChronoReadable(ChronoDate) && ChronoReadable(ChronoSpaced) && ChronoReadable(ChronoDashed)
  {
  }

  lemma JavaFormatsReadable()
    ensures JavaReadable(JavaDate) && JavaReadable(JavaDashed)
  {
  }

  /** chrono reads every valid date back from its `dd/mm/yy` form. */
  lemma ChronoDateRoundTrip(d: Date)
    requires ValidDate(d)
    ensures ChronoParseDate(FormatDate(d)) == Some(d)
  {
    ChronoRoundTrip(ChronoDate, [d.day, d.month, d.yy]);
  }

  /** chrono reads every valid date-time back from either of its forms. */
  lemma ChronoDateTimeRoundTrip(dt: DateTime, dashed: bool)
    requires ValidDate(dt.date) && ChronoValidTime(dt.time)
    ensures ChronoParseDateTime(FormatDateTime(dt, dashed), dashed) == Some(dt)
  {
    var vs := [dt.date.day, dt.date.month, dt.date.yy, dt.time.hour, dt.time.minute, dt.time.second];
    var items := if dashed then ChronoDashed else ChronoSpaced;
    ChronoDateTimeCount(dashed);
    Below100Six(dt.date.day, dt.date.month, dt.date.yy, dt.time.hour, dt.time.minute, dt.time.second);
    ChronoFormatsReadable();
    ChronoRoundTrip(items, vs);
  }

  /** chrono rejects a day past the end of the month. */
  lemma ChronoRejectsOverflowDay(d: Date)
    requires d.yy < 100 && 1 <= d.month <= 12 && DaysInMonth(d.month, d.yy) < d.day < 100
    ensures ChronoParseDate(FormatDate(d)).None?
  {
    ChronoRoundTrip(ChronoDate, [d.day, d.month, d.yy]);
  }

  /** The dashed text that Java's date-time pattern reads is the dashed
      chrono form with the same numbers. */
  lemma JavaDashedIsChronoDashed(vs: seq<nat>)
    requires |vs| == 6 && Below100(vs)
    ensures JavaRender(JavaDashed, vs) == ChronoRender(ChronoDashed, vs)
  {
  }

  /** Java reads `dd/MM/yy` back into the same date when it is valid, and
      moves a day past the end of a month to its last day. */
  lemma JavaDateRoundTrip(d: Date)
    requires d.yy < 100 && 1 <= d.month <= 12 && 1 <= d.day <= 31
    ensures ValidDate(d) ==> JavaParseDate(FormatDate(d)) == Some(d)
    ensures !ValidDate(d) ==> JavaParseDate(FormatDate(d)) == Some(Date(DaysInMonth(d.month, d.yy), d.month, d.yy))
  {
    var vs := [d.day, d.month, d.yy];
    Below100Three(d.day, d.month, d.yy);
    JavaDateShape();
    JavaDateIsChronoDate(vs);
    JavaRoundTrip(JavaDate, vs);
  }

  lemma Below100Three(a: nat, b: nat, c: nat)
    requires a < 100 && b < 100 && c < 100
    ensures Below100([a, b, c])
  {
  }

  lemma JavaDateShape()
    ensures JavaNumbers(JavaDate) == 3 && JavaReadable(JavaDate)
  {
    JavaFormatsReadable();
  }

  /** The text that Java's date pattern reads is chrono's date form with the
      same numbers. */
  lemma JavaDateIsChronoDate(vs: seq<nat>)
    requires |vs| == 3 && Below100(vs)
    ensures JavaNumbers(JavaDate) == 3 && ChronoNumbers(ChronoDate) == 3
    ensures JavaRender(JavaDate, vs) == ChronoRender(ChronoDate, vs)
  {
  }

  lemma JavaScanDashed(dt: DateTime)
    requires ValidDate(dt.date) && dt.time.hour <= 24 && JavaValidTime(dt.time.(hour := 0))
    ensures JavaScan(FormatDateTime(dt, true), JavaDashed)
         == Some([dt.date.day, dt.date.month, dt.date.yy, dt.time.hour, dt.time.minute, dt.time.second])
  {
    var vs := [dt.date.day, dt.date.month, dt.date.yy, dt.time.hour, dt.time.minute, dt.time.second];
    JavaDashedCount();
    Below100Six(dt.date.day, dt.date.month, dt.date.yy, dt.time.hour, dt.time.minute, dt.time.second);
    JavaFormatsReadable();
    JavaDashedIsChronoDashed(vs);
    JavaRoundTrip(JavaDashed, vs);
  }

  /** Java reads a valid date-time back from its dashed form. */
  lemma JavaDateTimeRoundTrip(dt: DateTime)
    requires ValidDate(dt.date) && JavaValidTime(dt.time)
    ensures JavaParseDateTime(FormatDateTime(dt, true)) == Some(dt)
  {
    var text := FormatDateTime(dt, true);
    JavaScanDashed(dt);
    JavaWithinDay(dt);
    JavaDashedCount();
    assert JavaScan(text, JavaDashed) == Some([dt.date.day, dt.date.month, dt.date.yy, dt.time.hour, dt.time.minute, dt.time.second]);
  }

  /** Java reads the dashed form of `24.00.00` as midnight of the next day. */
  lemma JavaEndOfDayRoundTrip(d: Date)
    requires ValidDate(d) && d != Date(31, 12, 99)
    ensures JavaParseDateTime(FormatDateTime(DateTime(d, Time(24, 0, 0)), true)) == Some(DateTime(NextDay(d).value, Time(0, 0, 0)))
  {
    var text := FormatDateTime(DateTime(d, Time(24, 0, 0)), true);
    JavaScanDashed(DateTime(d, Time(24, 0, 0)));
    JavaEndOfDay(d, 0, 0);
    JavaDashedCount();
    assert JavaScan(text, JavaDashed) == Some([d.day, d.month, d.yy, 24, 0, 0]);
  }

  // Formats that share a prefix

  lemma {:induction false} ChronoNumbersAppend(p: seq<ChronoItem>, q: seq<ChronoItem>)
    ensures ChronoNumbers(p + q) == ChronoNumbers(p) + ChronoNumbers(q)
  {
    if p == [] {
      assert p + q == q;
    } else {
      assert (p + q)[1..] == p[1..] + q;
      ChronoNumbersAppend(p[1..], q);
    }
  }

  lemma Below100Append(v: seq<nat>, w: seq<nat>)
    requires Below100(v) && Below100(w)
    ensures Below100(v + w)
  {
    forall i | 0 <= i < |v + w| ensures (v + w)[i] < 100 {
      if i < |v| { assert (v + w)[i] == v[i]; } else { assert (v + w)[i] == w[i - |v|]; }
    }
  }

  lemma {:induction false} ChronoRenderAppend(p: seq<ChronoItem>, q: seq<ChronoItem>, v: seq<nat>, w: seq<nat>)
    requires |v| == ChronoNumbers(p) && |w| == ChronoNumbers(q) && Below100(v) && Below100(w)
    ensures ChronoNumbers(p + q) == |v + w| && Below100(v + w)
    ensures ChronoRender(p + q, v + w) == ChronoRender(p, v) + ChronoRender(q, w)
    decreases |p|
  {
    ChronoNumbersAppend(p, q);
    Below100Append(v, w);
    if p == [] {
      assert p + q == q && v + w == w;
    } else if p[0].Number? {
      RenderNumber(p, v);
      ChronoRenderAppend(p[1..], q, v[1..], w);
      RenderAppendNumber(p, q, v, w);
    } else {
      ChronoRenderAppend(p[1..], q, v, w);
      RenderAppendMark(p, q, v, w);
    }
  }

  /** One step of `ChronoRenderAppend` at a numeric field, given the rest. */
  lemma RenderAppendNumber(p: seq<ChronoItem>, q: seq<ChronoItem>, v: seq<nat>, w: seq<nat>)
    requires p != [] && p[0].Number? && |v| == ChronoNumbers(p) && Below100(v) && |w| == ChronoNumbers(q) && Below100(w)
    requires v != [] && |v[1..]| == ChronoNumbers(p[1..]) && Below100(v[1..])
    requires ChronoNumbers(p[1..] + q) == |v[1..] + w| && Below100(v[1..] + w)
    requires ChronoRender(p[1..] + q, v[1..] + w) == ChronoRender(p[1..], v[1..]) + ChronoRender(q, w)
    requires ChronoNumbers(p + q) == |v + w| && Below100(v + w)
    ensures ChronoRender(p + q, v + w) == ChronoRender(p, v) + ChronoRender(q, w)
  {
    var r := ChronoRender(p[1..], v[1..]);
    var t := ChronoRender(q, w);
    assert ChronoRender(p, v) == Pad2(v[0]) + r by { RenderNumber(p, v); }
    assert ChronoRender(p + q, v + w) == Pad2(v[0]) + (r + t) by { RenderNumberBefore(p, q, v, w); }
    AppendAssoc(Pad2(v[0]), r, t);
  }

  lemma RenderNumberBefore(p: seq<ChronoItem>, q: seq<ChronoItem>, v: seq<nat>, w: seq<nat>)
    requires p != [] && p[0].Number? && v != [] && Below100(v) && ChronoNumbers(p + q) == |v + w| && Below100(v + w)
    ensures ChronoNumbers(p[1..] + q) == |v[1..] + w| && Below100(v[1..] + w)
    ensures ChronoRender(p + q, v + w) == Pad2(v[0]) + ChronoRender(p[1..] + q, v[1..] + w)
  {
    assert (p + q)[0] == p[0];
    RenderNumber(p + q, v + w);
    assert (p + q)[1..] == p[1..] + q;
    assert (v + w)[1..] == v[1..] + w;
    assert (v + w)[0] == v[0];
  }

  lemma RenderMarkBefore(p: seq<ChronoItem>, q: seq<ChronoItem>, v: seq<nat>, w: seq<nat>)
    requires p != [] && !p[0].Number? && ChronoNumbers(p + q) == |v + w| && Below100(v + w)
    ensures ChronoNumbers(p[1..] + q) == |v + w|
    ensures ChronoRender(p + q, v + w) == (if p[0].Space? then " " else [p[0].c]) + ChronoRender(p[1..] + q, v + w)
  {
    assert (p + q)[0] == p[0];
    assert (p + q)[1..] == p[1..] + q;
    if p[0].Space? { RenderSpace(p + q, v + w); } else { RenderLiteral(p + q, v + w); }
  }

  /** One step of `ChronoRenderAppend` at a literal or a blank, given the rest. */
  lemma RenderAppendMark(p: seq<ChronoItem>, q: seq<ChronoItem>, v: seq<nat>, w: seq<nat>)
    requires p != [] && !p[0].Number? && |v| == ChronoNumbers(p) && Below100(v) && |w| == ChronoNumbers(q) && Below100(w)
    requires |v| == ChronoNumbers(p[1..])
    requires ChronoNumbers(p[1..] + q) == |v + w|
    requires ChronoRender(p[1..] + q, v + w) == ChronoRender(p[1..], v) + ChronoRender(q, w)
    requires ChronoNumbers(p + q) == |v + w|
    ensures ChronoRender(p + q, v + w) == ChronoRender(p, v) + ChronoRender(q, w)
  {
    var m: string := if p[0].Space? then " " else [p[0].c];
    var r := ChronoRender(p[1..], v);
    var t := ChronoRender(q, w);
    assert ChronoRender(p, v) == m + r by {
      if p[0].Space? { RenderSpace(p, v); } else { RenderLiteral(p, v); }
    }
    assert ChronoRender(p + q, v + w) == m + (r + t) by { RenderMarkBefore(p, q, v, w); }
    AppendAssoc(m, r, t);
  }

  function Prefixed(v: seq<nat>, o: Option<seq<nat>>): Option<seq<nat>> {
    match o
    case None => None
    case Some(w) => Some(v + w)
  }

  /** A readable format followed by more items reads its own rendering and
      then goes on with the rest of the text, provided that text cannot be
      taken for part of the format's last field. */
  lemma {:induction false} ChronoScanAppend(p: seq<ChronoItem>, v: seq<nat>, t: string, q: seq<ChronoItem>)
    requires |v| == ChronoNumbers(p) && Below100(v) && ChronoReadable(p)
    requires p != [] && p[|p| - 1].Number? ==> t == [] || !IsDigit(t[0])
    requires p != [] && p[|p| - 1].Space? ==> t == [] || !IsWhitespace(t[0])
    ensures ChronoScan(ChronoRender(p, v) + t, p + q) == Prefixed(v, ChronoScan(t, q))
    decreases |p|
  {
    if p == [] {
      assert p + q == q && ChronoRender(p, v) + t == t && v == [];
      match ChronoScan(t, q)
      case None =>
      case Some(w) => assert v + w == w;
    } else {
      ChronoReadableTail(p);
      assert ChronoReadableAt(p, 0);
      if p[0].Number? {
        Below100Tail(v);
        ChronoScanAppend(p[1..], v[1..], t, q);
        ScanAppendNumber(p, v, t, q);
      } else {
        ChronoScanAppend(p[1..], v, t, q);
        if p[0].Space? {
          ScanAppendSpace(p, v, t, q);
        } else {
          ScanAppendLiteral(p, v, t, q);
        }
      }
    }
  }

  lemma {:induction false} ScanAppendSpace(p: seq<ChronoItem>, v: seq<nat>, t: string, q: seq<ChronoItem>)
    requires p != [] && p[0].Space? && |v| == ChronoNumbers(p) && Below100(v) && ChronoReadable(p)
    requires |p| == 1 ==> t == [] || !IsWhitespace(t[0])
    requires ChronoScan(ChronoRender(p[1..], v) + t, p[1..] + q) == Prefixed(v, ChronoScan(t, q))
    ensures ChronoScan(ChronoRender(p, v) + t, p + q) == Prefixed(v, ChronoScan(t, q))
  {
    var r := ChronoRender(p[1..], v);
    RenderSpace(p, v);
    AppendAssoc(" ", r, t);
    AfterSpace(p, v, t);
    ScanBlank(p, r + t, q);
  }

  lemma ScanBlank(p: seq<ChronoItem>, u: string, q: seq<ChronoItem>)
    requires p != [] && p[0].Space? && (u == [] || !IsWhitespace(u[0]))
    ensures ChronoScan(" " + u, p + q) == ChronoScan(u, p[1..] + q)
  {
    ChronoSkipBlank(u);
    ScanSpace(p, " " + u, u, q);
  }

  /** What follows a blank of a readable format is not white space. */
  lemma AfterSpace(p: seq<ChronoItem>, v: seq<nat>, t: string)
    requires p != [] && p[0].Space? && |v| == ChronoNumbers(p) && Below100(v) && ChronoReadable(p)
    requires |p| == 1 ==> t == [] || !IsWhitespace(t[0])
    ensures |v| == ChronoNumbers(p[1..])
    ensures var r := ChronoRender(p[1..], v) + t; r == [] || !IsWhitespace(r[0])
  {
    var rest := p[1..];
    ChronoReadableTail(p);
    assert ChronoReadableAt(p, 0);
    if rest != [] {
      ChronoRenderStart(rest, v);
      var r := ChronoRender(rest, v);
      if r != [] { assert (r + t)[0] == r[0]; }
    }
  }

  lemma RenderSpace(p: seq<ChronoItem>, v: seq<nat>)
    requires p != [] && p[0].Space? && |v| == ChronoNumbers(p) && Below100(v)
    ensures ChronoRender(p, v) == " " + ChronoRender(p[1..], v)
  {
  }

  lemma ScanSpace(p: seq<ChronoItem>, s: string, u: string, q: seq<ChronoItem>)
    requires p != [] && p[0].Space? && TrimStart(s) == u
    ensures ChronoScan(s, p + q) == ChronoScan(u, p[1..] + q)
  {
    assert (p + q)[1..] == p[1..] + q;
  }

  lemma {:induction false} ScanAppendLiteral(p: seq<ChronoItem>, v: seq<nat>, t: string, q: seq<ChronoItem>)
    requires p != [] && p[0].Literal? && |v| == ChronoNumbers(p) && Below100(v)
    requires ChronoScan(ChronoRender(p[1..], v) + t, p[1..] + q) == Prefixed(v, ChronoScan(t, q))
    ensures ChronoScan(ChronoRender(p, v) + t, p + q) == Prefixed(v, ChronoScan(t, q))
  {
    var c := p[0].c;
    var r := ChronoRender(p[1..], v);
    RenderLiteral(p, v);
    AppendAssoc([c], r, t);
    ScanLiteral(p, c, r + t, q);
  }

  lemma AppendAssoc(a: string, b: string, c: string)
    ensures a + b + c == a + (b + c)
  {
  }

  lemma RenderLiteral(p: seq<ChronoItem>, v: seq<nat>)
    requires p != [] && p[0].Literal? && |v| == ChronoNumbers(p) && Below100(v)
    ensures ChronoRender(p, v) == [p[0].c] + ChronoRender(p[1..], v)
  {
  }

  lemma ScanLiteral(p: seq<ChronoItem>, c: char, u: string, q: seq<ChronoItem>)
    requires p != [] && p[0] == Literal(c)
    ensures ChronoScan([c] + u, p + q) == ChronoScan(u, p[1..] + q)
  {
    assert (p + q)[1..] == p[1..] + q;
    assert ([c] + u)[1..] == u;
  }

  lemma {:induction false} ScanAppendNumber(p: seq<ChronoItem>, v: seq<nat>, t: string, q: seq<ChronoItem>)
    requires p != [] && p[0].Number? && |v| == ChronoNumbers(p) && Below100(v) && ChronoReadable(p)
    requires |p| == 1 ==> t == [] || !IsDigit(t[0])
    requires ChronoNumbers(p[1..]) == |v| - 1 && Below100(v[1..])
    requires ChronoScan(ChronoRender(p[1..], v[1..]) + t, p[1..] + q) == Prefixed(v[1..], ChronoScan(t, q))
    ensures ChronoScan(ChronoRender(p, v) + t, p + q) == Prefixed(v, ChronoScan(t, q))
  {
    var r := ChronoRender(p[1..], v[1..]);
    RenderNumber(p, v);
    AppendAssoc(Pad2(v[0]), r, t);
    AfterNumber(p, v, t);
    ScanPadded(p, v[0], r + t, q);
    PrefixedTwice(v, ChronoScan(t, q));
  }

  lemma ScanPadded(p: seq<ChronoItem>, d: nat, u: string, q: seq<ChronoItem>)
    requires p != [] && p[0].Number? && p[0].width >= 2 && d < 100 && (u == [] || !IsDigit(u[0]))
    ensures ChronoScan(Pad2(d) + u, p + q) == Prefixed([d], ChronoScan(u, p[1..] + q))
  {
    ReadPadded(d, u, p[0].width);
    ScanNumber(p, Pad2(d) + u, d, u, q);
  }

  lemma PrefixedTwice(v: seq<nat>, o: Option<seq<nat>>)
    requires v != []
    ensures Prefixed([v[0]], Prefixed(v[1..], o)) == Prefixed(v, o)
  {
    if o.Some? { assert [v[0]] + (v[1..] + o.value) == v + o.value; }
  }

  /** What follows a number of a readable format is not a digit. */
  lemma AfterNumber(p: seq<ChronoItem>, v: seq<nat>, t: string)
    requires p != [] && p[0].Number? && |v| == ChronoNumbers(p) && Below100(v) && ChronoReadable(p)
    requires |p| == 1 ==> t == [] || !IsDigit(t[0])
    ensures v != [] && |v[1..]| == ChronoNumbers(p[1..]) && Below100(v[1..]) && p[0].width >= 2
    ensures var r := ChronoRender(p[1..], v[1..]) + t; r == [] || !IsDigit(r[0])
  {
    var rest := p[1..];
    Below100Tail(v);
    ChronoReadableTail(p);
    assert ChronoReadableAt(p, 0);
    if rest != [] {
      ChronoRenderStart(rest, v[1..]);
      assert !rest[0].Number?;
      var r := ChronoRender(rest, v[1..]);
      if r != [] { assert (r + t)[0] == r[0]; }
    }
  }

  lemma RenderNumber(p: seq<ChronoItem>, v: seq<nat>)
    requires p != [] && p[0].Number? && |v| == ChronoNumbers(p) && Below100(v)
    ensures v != [] && Below100(v[1..]) && |v[1..]| == ChronoNumbers(p[1..])
    ensures ChronoRender(p, v) == Pad2(v[0]) + ChronoRender(p[1..], v[1..])
  {
    Below100Tail(v);
  }

  lemma ScanNumber(p: seq<ChronoItem>, s: string, d: nat, u: string, q: seq<ChronoItem>)
    requires p != [] && p[0].Number? && |s| >= 2
    requires TrimStart(s) == s && LeadingDigits(s, p[0].width) == 2 && DigitsValue(s[..2]) == d && s[2..] == u
    ensures ChronoScan(s, p + q) == Prefixed([d], ChronoScan(u, p[1..] + q))
  {
    assert (p + q)[1..] == p[1..] + q;
  }

  /** The time part of `%d/%m/%y %H.%M.%S`, after the date. */
  const SpacedTime: seq<ChronoItem> := [Space, Number(2), Literal('.'), Number(2), Literal('.'), Number(2)]
  /** The time part of `%d/%m/%y - %H.%M.%S`, after the date. */
  const DashedTime: seq<ChronoItem> :=
    [Space, Literal('-'), Space, Number(2), Literal('.'), Number(2), Literal('.'), Number(2)]

  lemma FormatsShareDate()
    ensures ChronoDashed == ChronoDate + DashedTime && ChronoSpaced == ChronoDate + SpacedTime
  {
  }

  lemma Below100Split(vs: seq<nat>)
    requires |vs| == 6 && Below100(vs)
    ensures vs == vs[..3] + vs[3..] && Below100(vs[..3]) && Below100(vs[3..])
  {
    forall i | 0 <= i < 3 ensures vs[..3][i] < 100 && vs[3..][i] < 100 { assert vs[3..][i] == vs[i + 3]; }
  }

  /** A format of a three-number date followed by a blank, a dash and a
      three-number time renders as the date, a blank, a dash and the rest. */
  lemma RenderDateDash(d: seq<ChronoItem>, tm: seq<ChronoItem>, vs: seq<nat>)
    requires ChronoNumbers(d) == 3 && ChronoNumbers(tm) == 3 && |tm| >= 2 && tm[0] == Space && tm[1] == Literal('-')
    requires |vs| == 6 && Below100(vs)
    ensures ChronoNumbers(d + tm) == 6 && ChronoNumbers(tm[2..]) == 3
    ensures Below100(vs[..3]) && Below100(vs[3..])
    ensures ChronoRender(d + tm, vs) == ChronoRender(d, vs[..3]) + " " + ("-" + ChronoRender(tm[2..], vs[3..]))
  {
    var v := vs[..3];
    var w := vs[3..];
    Below100Split(vs);
    ChronoRenderAppend(d, tm, v, w);
    RenderSpace(tm, w);
    RenderLiteral(tm[1..], w);
    assert tm[1..][1..] == tm[2..];
  }

  /** A readable format followed by a blank and a number does not read a
      rendering of that format followed by a blank and a dash. */
  lemma ScanDateThenDash(d: seq<ChronoItem>, v: seq<nat>, u: string, sp: seq<ChronoItem>)
    requires |v| == ChronoNumbers(d) && Below100(v) && ChronoReadable(d) && d != [] && d[|d| - 1].Number?
    requires |sp| >= 2 && sp[0] == Space && sp[1].Number?
    ensures ChronoScan(ChronoRender(d, v) + " " + ("-" + u), d + sp).None?
  {
    var t := " " + ("-" + u);
    assert ChronoRender(d, v) + " " + ("-" + u) == ChronoRender(d, v) + t;
    ChronoScanAppend(d, v, t, sp);
    BlankThenNumberRejectsDash(u, sp);
  }

  lemma BlankThenNumberRejectsDash(u: string, sp: seq<ChronoItem>)
    requires |sp| >= 2 && sp[0] == Space && sp[1].Number?
    ensures ChronoScan(" " + ("-" + u), sp).None?
  {
    var t := " " + ("-" + u);
    ChronoSkipBlank("-" + u);
    ScanSpace(sp, t, "-" + u, []);
    assert sp + [] == sp;
    assert sp[1..] + [] == sp[1..];
    assert LeadingDigits("-" + u, sp[1].width) == 0;
  }

  /** The dashed form of a date-time is not read by the spaced format: after
      the blank, the spaced format wants the hour where the dash stands. */
  lemma SpacedRejectsDashed(dt: DateTime)
    requires ValidDate(dt.date) && ChronoValidTime(dt.time)
    ensures ChronoScan(FormatDateTime(dt, true), ChronoSpaced).None?
  {
    var vs := [dt.date.day, dt.date.month, dt.date.yy, dt.time.hour, dt.time.minute, dt.time.second];
    ChronoDateTimeCount(true);
    Below100Six(dt.date.day, dt.date.month, dt.date.yy, dt.time.hour, dt.time.minute, dt.time.second);
    FormatsShareDate();
    TimeShapes();
    ChronoDateShape();
    DashedNotSpaced(ChronoDate, DashedTime, SpacedTime, vs);
  }

  lemma TimeShapes()
    ensures ChronoNumbers(DashedTime) == 3 && |DashedTime| >= 2 && DashedTime[0] == Space && DashedTime[1] == Literal('-')
    ensures |SpacedTime| >= 2 && SpacedTime[0] == Space && SpacedTime[1].Number?
  {
    assert ChronoNumbers(DashedTime) == 3;
  }

  lemma ChronoDateShape()
    ensures ChronoNumbers(ChronoDate) == 3 && ChronoReadable(ChronoDate)
    ensures ChronoDate != [] && ChronoDate[|ChronoDate| - 1].Number?
  {
    ChronoDateCount();
    ChronoFormatsReadable();
  }

  /** A date, then the dashed time: a format wanting a number right after
      the blank does not read it. */
  lemma DashedNotSpaced(d: seq<ChronoItem>, tm: seq<ChronoItem>, sp: seq<ChronoItem>, vs: seq<nat>)
    requires ChronoNumbers(d) == 3 && ChronoReadable(d) && d != [] && d[|d| - 1].Number?
    requires ChronoNumbers(tm) == 3 && |tm| >= 2 && tm[0] == Space && tm[1] == Literal('-')
    requires |sp| >= 2 && sp[0] == Space && sp[1].Number?
    requires |vs| == 6 && Below100(vs)
    ensures ChronoNumbers(d + tm) == 6
    ensures ChronoScan(ChronoRender(d + tm, vs), d + sp).None?
  {
    RenderDateDash(d, tm, vs);
    ScanDateThenDash(d, vs[..3], ChronoRender(tm[2..], vs[3..]), sp);
  }

  // The shapes of rendered dates

  /** `HH.mm.ss`: the time of day as the spaced format writes it. */
  function ClockText(t: Time): string
    requires t.hour < 100 && t.minute < 100 && t.second < 100
  {
    Pad2(t.hour) + "." + Pad2(t.minute) + "." + Pad2(t.second)
  }

  /** `dd/MM/yy`, piece by piece. */
  lemma DateShape(d: Date)
    requires d.day < 100 && d.month < 100 && d.yy < 100
    ensures FormatDate(d) == Pad2(d.day) + "/" + Pad2(d.month) + "/" + Pad2(d.yy)
  {
  }

  /** The time half of the spaced format: a blank, then `HH.mm.ss`. */
  lemma ClockShape(t: Time)
    requires t.hour < 100 && t.minute < 100 && t.second < 100
    ensures ChronoNumbers(SpacedTime) == 3
    ensures ChronoRender(SpacedTime, [t.hour, t.minute, t.second]) == " " + ClockText(t)
  {
  }

  /** `dd/MM/yy HH.mm.ss` is the date, a blank and the time of day. */
  lemma SpacedShape(dt: DateTime)
    requires dt.date.day < 100 && dt.date.month < 100 && dt.date.yy < 100
    requires dt.time.hour < 100 && dt.time.minute < 100 && dt.time.second < 100
    ensures FormatDateTime(dt, false) == FormatDate(dt.date) + " " + ClockText(dt.time)
  {
    var v := [dt.date.day, dt.date.month, dt.date.yy];
    var w := [dt.time.hour, dt.time.minute, dt.time.second];
    FormatsShareDate();
    ChronoDateCount();
    ClockShape(dt.time);
    ChronoRenderAppend(ChronoDate, SpacedTime, v, w);
    assert v + w == [dt.date.day, dt.date.month, dt.date.yy, dt.time.hour, dt.time.minute, dt.time.second];
    AppendAssoc(FormatDate(dt.date), " ", ClockText(dt.time));
  }

  /** Three two-digit fields joined by a separator make eight characters
      with no blank and no `-` among them. */
  lemma FieldsUnmarked(a: string, b: string, c: string, sep: char)
    requires |a| == 2 && |b| == 2 && |c| == 2 && AllDigits(a) && AllDigits(b) && AllDigits(c)
    requires sep != ' ' && sep != '-'
    ensures |a + [sep] + b + [sep] + c| == 8
    ensures forall i :: 0 <= i < 8 ==> (a + [sep] + b + [sep] + c)[i] != ' ' && (a + [sep] + b + [sep] + c)[i] != '-'
  {
    var w := a + [sep] + b + [sep] + c;
    DigitsUnmarked(a);
    DigitsUnmarked(b);
    DigitsUnmarked(c);
    forall i | 0 <= i < 8 ensures w[i] != ' ' && w[i] != '-' {
      if i < 2 { assert w[i] == a[i]; }
      else if 3 <= i < 5 { assert w[i] == b[i - 3]; }
      else if 6 <= i { assert w[i] == c[i - 6]; }
    }
  }

  /** `dd/MM/yy` is eight characters with no blank and no `-`. */
  lemma DateUnmarked(d: Date)
    requires d.day < 100 && d.month < 100 && d.yy < 100
    ensures |FormatDate(d)| == 8
    ensures forall i :: 0 <= i < 8 ==> FormatDate(d)[i] != ' ' && FormatDate(d)[i] != '-'
  {
    DateShape(d);
    FieldsUnmarked(Pad2(d.day), Pad2(d.month), Pad2(d.yy), '/');
  }

  /** `HH.mm.ss` is eight characters with no blank and no `-`. */
  lemma ClockUnmarked(t: Time)
    requires t.hour < 100 && t.minute < 100 && t.second < 100
    ensures |ClockText(t)| == 8
    ensures forall i :: 0 <= i < 8 ==> ClockText(t)[i] != ' ' && ClockText(t)[i] != '-'
  {
    FieldsUnmarked(Pad2(t.hour), Pad2(t.minute), Pad2(t.second), '.');
  }

  /** `dd/MM/yy HH.mm.ss` has a blank at position 8 and no `-`. */
  lemma SpacedBlank(dt: DateTime)
    requires dt.date.day < 100 && dt.date.month < 100 && dt.date.yy < 100
    requires dt.time.hour < 100 && dt.time.minute < 100 && dt.time.second < 100
    ensures FormatDateTime(dt, false) != [] && Contains(FormatDateTime(dt, false), " ")
    ensures !Contains(FormatDateTime(dt, false), " - ")
  {
    var x, y := FormatDate(dt.date), ClockText(dt.time);
    SpacedShape(dt);
    DateUnmarked(dt.date);
    ClockUnmarked(dt.time);
    BlankBetween(x, y);
  }

  /** Two blank-free, dash-free texts joined by a blank: the blank is found
      and `" - "` is not. */
  lemma BlankBetween(x: string, y: string)
    requires forall i :: 0 <= i < |x| ==> x[i] != ' ' && x[i] != '-'
    requires forall i :: 0 <= i < |y| ==> y[i] != ' ' && y[i] != '-'
    ensures x + " " + y != [] && Contains(x + " " + y, " ") && !Contains(x + " " + y, " - ")
  {
    var w := x + " " + y;
    forall i | 0 <= i < |w| ensures w[i] != '-' {
      if i < |x| { assert w[i] == x[i]; }
      else if i > |x| { assert w[i] == y[i - |x| - 1]; }
    }
    forall j: nat ensures !OccursAt(w, " - ", j) {
      if j + 3 <= |w| { assert w[j..j + 3][1] == w[j + 1]; }
    }
    assert OccursAt(w, " ", |x|) by { assert w[|x|..|x| + 1] == [w[|x|]]; }
  }

  /** Digits hold none of the marks the rewrites and splits look for. */
  lemma DigitsUnmarked(p: string)
    requires AllDigits(p)
    ensures forall i :: 0 <= i < |p| ==> p[i] != '.' && p[i] != ',' && p[i] != '%' && p[i] != '-' && p[i] != ' '
  {
    forall i | 0 <= i < |p| ensures p[i] != '.' && p[i] != ',' && p[i] != '%' && p[i] != '-' && p[i] != ' ' {
      assert IsDigit(p[i]);
    }
  }

  /** `dd/MM/yy` has no blank. */
  lemma FormatDateBlankFree(d: Date)
    requires d.day < 100 && d.month < 100 && d.yy < 100
    ensures FormatDate(d) != [] && !Contains(FormatDate(d), " - ")
    ensures !Contains(FormatDate(d), " ")
  {
    var t := FormatDate(d);
    DateUnmarked(d);
    forall j: nat ensures !OccursAt(t, " - ", j) && !OccursAt(t, " ", j) {
      if j < |t| { assert t[j..j + 1][0] == t[j]; }
    }
  }

  lemma OfficialText(d: Date, v: string, text: string)
    requires d == Date(4, 11, 24) && v == "1234,56" && text == "1234,56 - 04/11/24"
    ensures d.yy < 100 && ValidDate(d) && text == v + " - " + FormatDate(d)
    ensures forall i :: 0 <= i < |v| ==> v[i] != ' '
  {
    assert FormatDate(d) == "04/11/24" by { DateExample(d); }
    assert text == v + " - " + "04/11/24";
  }

  lemma ReferenceText(dt: DateTime, v: string, text: string)
    requires dt == DateTime(Date(4, 11, 24), Time(17, 45, 0)) && v == "1234,56" && text == "1234,56 - 04/11/24 17.45.00"
    ensures text == v + " - " + FormatDateTime(dt, false)
    ensures forall i :: 0 <= i < |v| ==> v[i] != ' '
  {
    assert FormatDateTime(dt, false) == "04/11/24 17.45.00" by { SpacedExample(dt); }
    ExampleText(v, text);
  }

  lemma ExampleText(v: string, text: string)
    requires v == "1234,56" && text == "1234,56 - 04/11/24 17.45.00"
    ensures text == v + " - " + "04/11/24 17.45.00"
    ensures forall i :: 0 <= i < |v| ==> v[i] != ' '
  {
  }

  lemma DateExample(d: Date)
    requires d == Date(4, 11, 24)
    ensures FormatDate(d) == "04/11/24"
  {
    assert FormatDate(d) == Pad2(4) + "/" + Pad2(11) + "/" + Pad2(24) by { DateShape(d); }
    assert Pad2(4) == "04" && Pad2(11) == "11" && Pad2(24) == "24";
  }

  lemma ClockExample(t: Time)
    requires t == Time(17, 45, 0)
    ensures ClockText(t) == "17.45.00"
  {
    assert Pad2(17) == "17" && Pad2(45) == "45" && Pad2(0) == "00";
  }

  lemma SpacedExample(dt: DateTime)
    requires dt == DateTime(Date(4, 11, 24), Time(17, 45, 0))
    ensures FormatDateTime(dt, false) == "04/11/24 17.45.00"
  {
    assert FormatDateTime(dt, false) == FormatDate(dt.date) + " " + ClockText(dt.time) by { SpacedShape(dt); }
    DateExample(dt.date);
    ClockExample(dt.time);
    SpacedJoin("04/11/24", "17.45.00");
  }

  lemma SpacedJoin(d: string, t: string)
    requires d == "04/11/24" && t == "17.45.00"
    ensures d + " " + t == "04/11/24 17.45.00"
  {
  }
}
