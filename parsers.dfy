/** The tolerant value parsers of `src/shares/parsers.rs` (`SafeParse` and
    `DefaultParse` for an HTML element): numbers written the Italian way
    (`1.234,56`) or the English way (`1,234.56`), possibly signed or with a
    percent sign, unsigned integers with dot separators, dates and
    date-times in the exchange's formats, and the composite "price - date"
    cells.

    An element is given by its first text node, `text().next()`. */
module Parsers {
  import opened Common
  import opened Numbers
  import opened Dates

  datatype Element = Element(firstText: Option<string>)

  /** A price and the date it refers to, each optional. */
  datatype PriceDateReference = PriceDateReference(price: Option<Float>, date: Option<Date>)

  /** A price and the date-time it refers to, each optional. */
  datatype PriceDateTimeReference = PriceDateTimeReference(price: Option<Float>, datetime: Option<DateTime>)

  /** The text `parse_float` works on: trimmed, then stripped of every
      leading `+` and every trailing `%`, then trimmed again. */
  function CleanFloatText(text: string): string {
    Trim(TrimEndMatches(TrimStartMatches(Trim(text), '+'), '%'))
  }

  /** Text matching the Italian pattern loses its dots and has its comma made
      a point; any other text loses its commas. */
  function Normalize(unsigned: string): string {
    if MatchesThousandsPattern(unsigned) then ReplaceChar(RemoveChar(unsigned, '.'), ',', '.')
    else RemoveChar(unsigned, ',')
  }

  /** The parsed magnitude with the sign applied afterwards. */
  function Signed(magnitude: Option<Float>, negative: bool): Option<Float> {
    match magnitude
    case None => None
    case Some(v) => Some(if negative then v.Negate() else v)
  }

  /** `parse_float`: a leading `-` of the cleaned text makes the value
      negative; every leading `-` is dropped, the rest is normalised and read
      by Rust's `f64` parser, and the sign is applied afterwards. */
  function ParseFloat(text: string): Option<Float> {
    var cleaned := CleanFloatText(text);
    var negative := cleaned != [] && cleaned[0] == '-';
    Signed(RustParseF64(Normalize(TrimStartMatches(cleaned, '-'))), negative)
  }

  /** `parse_int`: trimmed, every `.` removed, then read as a `u64`. */
  function ParseInt(text: string): (r: Option<nat>)
    ensures r.Some? ==> r.value < U64_BOUND
  {
    RustParseUnsigned(RemoveChar(Trim(text), '.'), U64_BOUND)
  }

  /** `parse_datetime`: `%d/%m/%y %H.%M.%S`, and only when that fails
      `%d/%m/%y - %H.%M.%S`. */
  function ParseDatetime(text: string): (r: Option<DateTime>)
    ensures ChronoParseDateTime(text, false).Some? ==> r == ChronoParseDateTime(text, false)
    ensures ChronoParseDateTime(text, false).None? ==> r == ChronoParseDateTime(text, true)
    ensures r.Some? ==> ValidDate(r.value.date) && ChronoValidTime(r.value.time)
  {
    match ChronoParseDateTime(text, false)
    case Some(dt) => Some(dt)
    case None => ChronoParseDateTime(text, true)
  }

  /** `parse_date`: `%d/%m/%y`. */
  function ParseDate(text: string): (r: Option<Date>)
    ensures r.Some? ==> ValidDate(r.value)
  {
    ChronoParseDate(text)
  }

  // SafeParse: `None` when the element has no text or the text does not parse.

  function SafeParseFloat(e: Element): Option<Float> {
    e.firstText.AndThen(ParseFloat)
  }

  function SafeParseString(e: Element): Option<string> {
    e.firstText
  }

  function SafeParseDateTime(e: Element): Option<DateTime> {
    e.firstText.AndThen(ParseDatetime)
  }

  function SafeParseU64(e: Element): (r: Option<nat>)
    ensures r.Some? ==> r.value < U64_BOUND
  {
    e.firstText.AndThen(ParseInt)
  }

  /** The text split at its first `" - "`: the price before it and the date
      after it, each parsed on its own; `None` without such a separator. */
  function SafeParsePriceDate(e: Element): (r: Option<PriceDateReference>)
    ensures r.None? <==> !Contains(DefaultParseString(e), " - ")
  {
    match SplitOnce(DefaultParseString(e), " - ")
    case None => None
    case Some((price, date)) => Some(PriceDateReference(ParseFloat(price), ParseDate(date)))
  }

  /** The text split at its first `-`, both sides trimmed: the price and the
      date-time, each parsed on its own; `None` without a `-`. */
  function SafeParsePriceDateTime(e: Element): (r: Option<PriceDateTimeReference>)
    ensures r.None? <==> !Contains(DefaultParseString(e), "-")
  {
    match SplitOnce(DefaultParseString(e), "-")
    case None => None
    case Some((price, datetime)) => Some(PriceDateTimeReference(ParseFloat(Trim(price)), ParseDatetime(Trim(datetime))))
  }

  // DefaultParse: the type's default in place of `None`.

  function DefaultParseFloat(e: Element): (r: Float)
    ensures SafeParseFloat(e).None? ==> r == Finite(0.0)
    ensures SafeParseFloat(e).Some? ==> r == SafeParseFloat(e).value
  {
    SafeParseFloat(e).GetOr(Finite(0.0))
  }

  /** `"N/A"` when the element has no text. */
  function DefaultParseString(e: Element): (r: string)
    ensures e.firstText.None? ==> r == "N/A"
    ensures e.firstText.Some? ==> r == e.firstText.value
  {
    e.firstText.GetOr("N/A")
  }

  function DefaultParseDateTime(e: Element): (r: DateTime)
    ensures SafeParseDateTime(e).None? ==> r == DefaultDateTime
    ensures SafeParseDateTime(e).Some? ==> r == SafeParseDateTime(e).value
  {
    SafeParseDateTime(e).GetOr(DefaultDateTime)
  }

  function DefaultParseU64(e: Element): (r: nat)
    ensures SafeParseU64(e).None? ==> r == 0
    ensures SafeParseU64(e).Some? ==> r == SafeParseU64(e).value
  {
    SafeParseU64(e).GetOr(0)
  }

  /** The derived default, both parts `None`, when there is no `" - "`. */
  function DefaultParsePriceDate(e: Element): (r: PriceDateReference)
    ensures !Contains(DefaultParseString(e), " - ") ==> r == PriceDateReference(None, None)
    ensures Contains(DefaultParseString(e), " - ") ==> Some(r) == SafeParsePriceDate(e)
  {
    SafeParsePriceDate(e).GetOr(PriceDateReference(None, None))
  }

  /** With a `-`, both parts present, an unreadable price as 0 and an
      unreadable date-time as the default; without one, both parts `None`. */
  function DefaultParsePriceDateTime(e: Element): (r: PriceDateTimeReference)
    ensures !Contains(DefaultParseString(e), "-") ==> r == PriceDateTimeReference(None, None)
    ensures Contains(DefaultParseString(e), "-") ==>
      && r.price == Some(SafeParsePriceDateTime(e).value.price.GetOr(Finite(0.0)))
      && r.datetime == Some(SafeParsePriceDateTime(e).value.datetime.GetOr(DefaultDateTime))
  {
    match SplitOnce(DefaultParseString(e), "-")
    case None => PriceDateTimeReference(None, None)
    case Some((price, datetime)) =>
      PriceDateTimeReference(Some(ParseFloat(Trim(price)).GetOr(Finite(0.0))),
                             Some(ParseDatetime(Trim(datetime)).GetOr(DefaultDateTime)))
  }

  // Numbers

  /** A text that starts and ends with a digit is its own cleaned form. */
  lemma CleanDigitEnds(s: string)
    requires s != [] && IsDigit(s[0]) && IsDigit(s[|s| - 1])
    ensures CleanFloatText(s) == s
  {
    TrimVisible(s);
    assert TrimStartMatches(s, '+') == s by { DigitStartKept(s, '+'); }
    assert TrimEndMatches(s, '%') == s by { DigitEndKept(s, '%'); }
  }

  lemma DigitStartKept(s: string, c: char)
    requires s != [] && IsDigit(s[0]) && !IsDigit(c)
    ensures TrimStartMatches(s, c) == s
  {
  }

  lemma DigitEndKept(s: string, c: char)
    requires s != [] && IsDigit(s[|s| - 1]) && !IsDigit(c)
    ensures TrimEndMatches(s, c) == s
  {
  }

  /** Rust reads text that starts with a digit as an unsigned decimal. */
  lemma RustParseDigitStart(x: string)
    requires x != [] && IsDigit(x[0])
    ensures RustParseF64(x) == match ParseUnsignedDecimal(x) { case None => None case Some(v) => Some(Finite(v)) }
  {
    var lower := ToLower(x);
    assert lower[0] == x[0];
  }

  /** The dots of a string of digits and dots removed leave a non-empty
      string of digits when there is a digit at its start. */
  lemma {:induction false} RemoveDotsDigits(g: string)
    requires forall i :: 0 <= i < |g| ==> IsDigit(g[i]) || g[i] == '.'
    ensures AllDigits(RemoveChar(g, '.'))
    ensures g != [] && IsDigit(g[0]) ==> RemoveChar(g, '.') != []
  {
    if g != [] {
      RemoveDotsDigits(g[1..]);
      var h: string := if g[0] == '.' then [] else [g[0]];
      assert RemoveChar(g, '.') == h + RemoveChar(g[1..], '.');
    }
  }

  /** The digits of an integer written with dot-separated groups. */
  function WholeDigits(g: string): (r: string)
    requires GroupedInteger(g)
    ensures AllDigits(r) && r != []
  {
    GroupedIntegerChars(g);
    RemoveDotsDigits(g);
    RemoveChar(g, '.')
  }

  /** Cleaned text that starts with a digit is normalised and read as it is. */
  lemma ParseUnsignedText(text: string)
    requires CleanFloatText(text) != [] && IsDigit(CleanFloatText(text)[0])
    ensures ParseFloat(text) == RustParseF64(Normalize(CleanFloatText(text)))
  {
    var c := CleanFloatText(text);
    assert TrimStartMatches(c, '-') == c;
    var o := RustParseF64(Normalize(c));
    assert Signed(o, false) == o;
  }

  /** The comma of `x "," f` turned into a point. */
  lemma CommaToPoint(x: string, f: string)
    requires AllDigits(x) && AllDigits(f)
    ensures ReplaceChar(x + "," + f, ',', '.') == x + "." + f
  {
  }

  lemma NormalizeItalian(g: string, f: string)
    requires GroupedInteger(g) && f != [] && AllDigits(f)
    ensures Normalize(g + "," + f) == WholeDigits(g) + "." + f
  {
    GroupedIntegerMatches(g, f);
    var x := WholeDigits(g);
    RemoveCharAppend(g + ",", f, '.');
    RemoveCharAppend(g, ",", '.');
    RemoveCharAbsent(f, '.');
    assert RemoveChar(",", '.') == ",";
    assert RemoveChar(g + "," + f, '.') == x + "," + f;
    CommaToPoint(x, f);
  }

  lemma ReadPointed(x: string, f: string)
    requires x != [] && AllDigits(x) && AllDigits(f)
    ensures RustParseF64(x + "." + f) == Some(Finite(DecimalValue(x, f)))
  {
    assert (x + "." + f)[0] == x[0];
    RustParseDigitStart(x + "." + f);
    ParsePointedDigits(x, f);
  }

  /** The normalised form of an Italian decimal is read as its value. */
  lemma ItalianValue(g: string, f: string)
    requires GroupedInteger(g) && f != [] && AllDigits(f)
    ensures RustParseF64(Normalize(g + "," + f)) == Some(Finite(DecimalValue(WholeDigits(g), f)))
  {
    NormalizeItalian(g, f);
    ReadPointed(WholeDigits(g), f);
  }

  /** Italian decimals: `1.234,56` is read as 1234.56. The dots of the whole
      part go, the comma becomes the decimal point. */
  lemma ItalianDecimal(g: string, f: string)
    requires GroupedInteger(g) && f != [] && AllDigits(f)
    ensures ParseFloat(g + "," + f) == Some(Finite(DecimalValue(WholeDigits(g), f)))
  {
    ItalianEnds(g, f);
    CleanDigitEnds(g + "," + f);
    ParseUnsignedText(g + "," + f);
    ItalianValue(g, f);
  }

  lemma NormalizeWhole(g: string)
    requires GroupedInteger(g)
    ensures Normalize(g) == WholeDigits(g)
  {
    GroupedIntegerMatches(g, []);
    ReplaceCharAbsent(WholeDigits(g), ',', '.');
  }

  /** An integer with dot separators: `1.234` is read as 1234, and a bare
      `1234` as itself. */
  lemma ItalianWhole(g: string)
    requires GroupedInteger(g)
    ensures ParseFloat(g) == Some(Finite(DigitsValue(WholeDigits(g)) as real))
  {
    GroupedIntegerChars(g);
    CleanDigitEnds(g);
    ParseUnsignedText(g);
    NormalizeWhole(g);
    ReadWhole(WholeDigits(g));
  }

  lemma ReadWhole(x: string)
    requires x != [] && AllDigits(x)
    ensures RustParseF64(x) == Some(Finite(DigitsValue(x) as real))
  {
    RustParseDigitStart(x);
    ParseDigits(x);
  }

  /** `+` signs in front, `-` signs after them and `%` signs behind a number
      that starts and ends with a digit: the `+` and `%` signs are ignored,
      and any number of `-` signs negates the value once. */
  lemma SignsAndPercent(plus: nat, minus: nat, percent: nat, s: string)
    requires s != [] && IsDigit(s[0]) && IsDigit(s[|s| - 1])
    ensures ParseFloat(Rep('+', plus) + Rep('-', minus) + s + Rep('%', percent))
         == Signed(ParseFloat(s), minus > 0)
  {
    SignedText(plus, minus, percent, s);
    CleanDigitEnds(s);
    ParseUnsignedText(s);
  }

  lemma SignedText(plus: nat, minus: nat, percent: nat, s: string)
    requires s != [] && IsDigit(s[0]) && IsDigit(s[|s| - 1])
    ensures ParseFloat(Rep('+', plus) + Rep('-', minus) + s + Rep('%', percent))
         == Signed(RustParseF64(Normalize(s)), minus > 0)
  {
    var text := Rep('+', plus) + Rep('-', minus) + s + Rep('%', percent);
    CleanSigned(plus, minus, percent, s);
    ParseCleaned(text, minus, s);
  }

  lemma ParseCleaned(text: string, minus: nat, s: string)
    requires s != [] && IsDigit(s[0])
    requires CleanFloatText(text) == Rep('-', minus) + s
    ensures ParseFloat(text) == Signed(RustParseF64(Normalize(s)), minus > 0)
  {
    var c := Rep('-', minus) + s;
    TrimStartMatchesRep('-', minus, s);
    if minus > 0 { assert c[0] == '-'; } else { assert c == s; }
  }

  lemma CleanSigned(plus: nat, minus: nat, percent: nat, s: string)
    requires s != [] && IsDigit(s[0]) && IsDigit(s[|s| - 1])
    ensures CleanFloatText(Rep('+', plus) + Rep('-', minus) + s + Rep('%', percent)) == Rep('-', minus) + s
  {
    var c := Rep('-', minus) + s;
    assert Rep('+', plus) + Rep('-', minus) + s + Rep('%', percent) == Rep('+', plus) + c + Rep('%', percent);
    if minus > 0 { assert c[0] == '-'; } else { assert c == s; }
    assert c[|c| - 1] == s[|s| - 1];
    CleanAround(plus, c, percent);
  }

  /** Cleaning strips the `+` signs in front and the `%` signs behind. */
  lemma CleanAround(plus: nat, c: string, percent: nat)
    requires c != [] && (c[0] == '-' || IsDigit(c[0])) && IsDigit(c[|c| - 1])
    ensures CleanFloatText(Rep('+', plus) + c + Rep('%', percent)) == c
  {
    var u := c + Rep('%', percent);
    var t := Rep('+', plus) + u;
    assert Rep('+', plus) + c + Rep('%', percent) == t;
    VisibleEnds(plus, c, percent);
    TrimVisible(t);
    assert u[0] == c[0];
    TrimStartMatchesRep('+', plus, u);
    TrimEndMatchesRep('%', percent, c);
    Visible(c[0]);
    Visible(c[|c| - 1]);
    TrimVisible(c);
    assert TrimEndMatches(TrimStartMatches(Trim(t), '+'), '%') == c;
  }

  lemma Visible(ch: char)
    requires ch == '-' || ch == '+' || ch == '%' || IsDigit(ch)
    ensures !IsWhitespace(ch)
  {
  }

  lemma VisibleEnds(plus: nat, c: string, percent: nat)
    requires c != [] && (c[0] == '-' || IsDigit(c[0])) && IsDigit(c[|c| - 1])
    ensures var t := Rep('+', plus) + c + Rep('%', percent);
      t != [] && !IsWhitespace(t[0]) && !IsWhitespace(t[|t| - 1])
  {
    var t := Rep('+', plus) + c + Rep('%', percent);
    if plus > 0 { assert t[0] == '+'; } else { assert t[0] == c[0]; }
    if percent > 0 { assert t[|t| - 1] == '%'; } else { assert t[|t| - 1] == c[|c| - 1]; }
    Visible(t[0]);
    Visible(t[|t| - 1]);
  }

  /** Italian decimals start and end with a digit. */
  lemma ItalianEnds(g: string, f: string)
    requires GroupedInteger(g) && f != [] && AllDigits(f)
    ensures var s := g + "," + f; s != [] && IsDigit(s[0]) && IsDigit(s[|s| - 1])
  {
    GroupedIntegerChars(g);
    var s := g + "," + f;
    assert s[0] == g[0] && s[|s| - 1] == f[|f| - 1];
  }

  /** A negative Italian decimal: `-1.234,56` is read as -1234.56. */
  lemma NegativeItalian(g: string, f: string)
    requires GroupedInteger(g) && f != [] && AllDigits(f)
    ensures ParseFloat("-" + g + "," + f) == Some(Finite(DecimalValue(WholeDigits(g), f)).Negate())
  {
    Prepend("-", g, f);
    NegativeItalianText(g, f);
  }

  lemma NegativeItalianText(g: string, f: string)
    requires GroupedInteger(g) && f != [] && AllDigits(f)
    ensures ParseFloat("-" + (g + "," + f)) == Some(Finite(DecimalValue(WholeDigits(g), f)).Negate())
  {
    ItalianEnds(g, f);
    ItalianDecimal(g, f);
    Negative(g + "," + f);
  }

  lemma Prepend(p: string, g: string, f: string)
    ensures p + (g + "," + f) == p + g + "," + f
  {
  }

  /** A leading `-` negates. */
  lemma Negative(s: string)
    requires s != [] && IsDigit(s[0]) && IsDigit(s[|s| - 1])
    ensures ParseFloat("-" + s) == Signed(ParseFloat(s), true)
  {
    assert Rep('+', 0) + Rep('-', 1) + s + Rep('%', 0) == "-" + s;
    SignsAndPercent(0, 1, 0, s);
  }

  /** A percentage: `+12,5%` is read as 12.5. */
  lemma PercentItalian(g: string, f: string)
    requires GroupedInteger(g) && f != [] && AllDigits(f)
    ensures ParseFloat("+" + g + "," + f + "%") == Some(Finite(DecimalValue(WholeDigits(g), f)))
  {
    ItalianEnds(g, f);
    var s := g + "," + f;
    assert Rep('+', 1) + Rep('-', 0) + s + Rep('%', 1) == "+" + g + "," + f + "%";
    SignedText(1, 0, 1, s);
    ItalianValue(g, f);
  }

  lemma GroupedThousands()
    ensures GroupedInteger("1.234") && WholeDigits("1.234") == "1234"
  {
    assert Groups(".234") by { assert AllDigits(".234"[1..4]) && ".234"[4..] == []; }
    assert AllDigits("1.234"[..1]) && "1.234"[1..] == ".234";
    assert GroupedInteger("1.234");
    ThousandsDigits();
  }

  lemma ThousandsDigits()
    ensures RemoveChar("1.234", '.') == "1234"
  {
    RemoveCharAppend("1.", "234", '.');
    RemoveCharAbsent("234", '.');
    assert "1." + "234" == "1.234";
  }

  lemma GroupedPlain()
    ensures GroupedInteger("1234") && WholeDigits("1234") == "1234"
  {
    assert Groups("234") by { assert AllDigits("234"[..3]) && "234"[3..] == []; }
    assert AllDigits("1234"[..1]) && "1234"[1..] == "234";
    assert GroupedInteger("1234");
    RemoveCharAbsent("1234", '.');
  }

  lemma GroupedOne()
    ensures GroupedInteger("1") && WholeDigits("1") == "1"
  {
    assert AllDigits("1"[..1]) && "1"[1..] == [];
    assert GroupedInteger("1");
    RemoveCharAbsent("1", '.');
  }

  lemma DecimalExamples()
    ensures DecimalValue("1234", "56") == 1234.56
  {
    assert "1234"[..3] == "123" && "123"[..2] == "12" && "12"[..1] == "1" && "1"[..0] == [];
    assert "56"[..1] == "5" && "5"[..0] == [];
    assert DigitsValue("1234") == 1234;
    assert DigitsValue("56") == 56;
  }

  lemma DecimalOneExample()
    ensures DecimalValue("1", "234") == 1.234
  {
    assert "1"[..0] == [];
    assert "234"[..2] == "23" && "23"[..1] == "2" && "2"[..0] == [];
    assert DigitsValue("234") == 234;
  }

  /** `1.234,56` is 1234.56. */
  lemma ItalianThousandsExample()
    ensures ParseFloat("1.234,56") == Some(Finite(1234.56))
  {
    GroupedThousands();
    DecimalExamples();
    assert "1.234" + "," + "56" == "1.234,56";
    ItalianDecimal("1.234", "56");
  }

  /** `1234,56` is 1234.56. */
  lemma ItalianPlainExample()
    ensures ParseFloat("1234,56") == Some(Finite(1234.56))
  {
    GroupedPlain();
    DecimalExamples();
    assert "1234" + "," + "56" == "1234,56";
    ItalianDecimal("1234", "56");
  }

  /** `1,234` is one point two three four, not a thousand and more. */
  lemma ItalianCommaExample()
    ensures ParseFloat("1,234") == Some(Finite(1.234))
  {
    ItalianCommaValue();
    DecimalOneExample();
  }

  lemma ItalianCommaValue()
    ensures ParseFloat("1,234") == Some(Finite(DecimalValue("1", "234")))
  {
    GroupedOne();
    assert "1" + "," + "234" == "1,234";
    ItalianDecimal("1", "234");
  }

  /** Text the pattern rejects only loses its commas before it is read. */
  lemma NotItalian(s: string)
    requires s != [] && IsDigit(s[0]) && IsDigit(s[|s| - 1]) && !MatchesThousandsPattern(s)
    ensures ParseFloat(s) == RustParseF64(RemoveChar(s, ','))
  {
    CleanDigitEnds(s);
    ParseUnsignedText(s);
  }

  lemma NotItalianRead(s: string, x: string, f: string)
    requires s != [] && IsDigit(s[0]) && IsDigit(s[|s| - 1]) && !MatchesThousandsPattern(s)
    requires x != [] && AllDigits(x) && AllDigits(f) && RemoveChar(s, ',') == x + "." + f
    ensures ParseFloat(s) == Some(Finite(DecimalValue(x, f)))
  {
    NotItalian(s);
    ReadPointed(x, f);
  }

  lemma EnglishRejected()
    ensures !MatchesThousandsPattern("1,234.56")
  {
    var s := "1,234.56";
    assert !AllDigits(s[..2]) by { assert s[..2][1] == ','; }
    assert !AllDigits(s[..3]) by { assert s[..3][1] == ','; }
    var t := s[1..];
    assert t == ",234.56";
    assert !AllDigits(t[1..]) by { assert t[1..][3] == '.'; }
    assert !AllDigits(t[..3]) by { assert t[..3][0] == ','; }
    assert !GroupTail(t);
  }

  lemma EnglishDigits()
    ensures RemoveChar("1,234.56", ',') == "1234.56"
  {
    RemoveCharAppend("1,", "234.56", ',');
    assert "1," + "234.56" == "1,234.56";
    RemoveCharAbsent("234.56", ',');
    assert RemoveChar("1,", ',') == "1";
  }

  /** The English example: `1,234.56` is read as 1234.56. */
  lemma EnglishExample()
    ensures ParseFloat("1,234.56") == Some(Finite(1234.56))
  {
    EnglishValue();
    DecimalExamples();
  }

  lemma EnglishValue()
    ensures ParseFloat("1,234.56") == Some(Finite(DecimalValue("1234", "56")))
  {
    EnglishRejected();
    EnglishDigits();
    EnglishJoined();
    NotItalianRead("1,234.56", "1234", "56");
  }

  lemma EnglishJoined()
    ensures "1234" + "." + "56" == "1234.56"
  {
  }

  lemma GroupedEnds(g: string)
    requires GroupedInteger(g)
    ensures RemoveChar(Trim(g), '.') == WholeDigits(g) && WholeDigits(g)[0] != '+'
  {
    GroupedIntegerChars(g);
    TrimVisible(g);
  }

  /** `parse_int` reads an integer with dot separators as its digits, when it
      fits in a `u64`. */
  lemma GroupedInt(g: string)
    requires GroupedInteger(g)
    ensures DigitsValue(WholeDigits(g)) < U64_BOUND ==> ParseInt(g) == Some(DigitsValue(WholeDigits(g)))
    ensures DigitsValue(WholeDigits(g)) >= U64_BOUND ==> ParseInt(g) == None
  {
    var w := WholeDigits(g);
    assert ParseInt(g) == RustParseUnsigned(w, U64_BOUND) by { GroupedEnds(g); }
    UnsignedDigits(w, U64_BOUND);
  }

  /** Digits alone are read as their value when it lies below the bound. */
  lemma UnsignedDigits(w: string, bound: nat)
    requires w != [] && AllDigits(w)
    ensures RustParseUnsigned(w, bound) == if DigitsValue(w) < bound then Some(DigitsValue(w)) else None
  {
    assert !IsDigit('+');
  }

  lemma NoTextParsesNothing()
    ensures ParseFloat("") == None && ParseInt("") == None
  {
    assert CleanFloatText("") == [];
    assert Normalize("") == [];
    assert ToLower("") == [];
  }

  // Dates

  /** Both date-time forms are read back: the spaced one by the first
      format, the dashed one, which the first format rejects, by the second. */
  lemma ParseDatetimeRoundTrip(dt: DateTime)
    requires ValidDate(dt.date) && ChronoValidTime(dt.time)
    ensures ParseDatetime(FormatDateTime(dt, false)) == Some(dt)
    ensures ParseDatetime(FormatDateTime(dt, true)) == Some(dt)
  {
    ChronoDateTimeRoundTrip(dt, false);
    ChronoDateTimeRoundTrip(dt, true);
    SpacedRejectsDashed(dt);
    ChronoDateTimeCount(false);
  }

  lemma ParseDateRoundTrip(d: Date)
    requires ValidDate(d)
    ensures ParseDate(FormatDate(d)) == Some(d)
  {
    ChronoDateRoundTrip(d);
  }

  // Composite cells

  /** A price without blanks, `" - "` and a date: each part parsed on its own. */
  lemma PriceDateSplit(price: string, date: string)
    requires forall i :: 0 <= i < |price| ==> price[i] != ' '
    ensures SafeParsePriceDate(Element(Some(price + " - " + date))) == Some(PriceDateReference(ParseFloat(price), ParseDate(date)))
  {
    SplitOnceFirst(price, " - ", date);
  }

  /** `1.234,56 - 29/11/24` gives both parts. */
  lemma PriceDateRoundTrip(g: string, f: string, d: Date)
    requires GroupedInteger(g) && f != [] && AllDigits(f) && ValidDate(d)
    ensures SafeParsePriceDate(Element(Some(g + "," + f + " - " + FormatDate(d))))
         == Some(PriceDateReference(Some(Finite(DecimalValue(WholeDigits(g), f))), Some(d)))
  {
    ItalianBlankFree(g, f);
    PriceDateSplit(g + "," + f, FormatDate(d));
    ItalianDecimal(g, f);
    ParseDateRoundTrip(d);
  }

  lemma ItalianBlankFree(g: string, f: string)
    requires GroupedInteger(g) && AllDigits(f)
    ensures forall i :: 0 <= i < |g + "," + f| ==> (g + "," + f)[i] != ' ' && (g + "," + f)[i] != '-'
  {
    GroupedIntegerChars(g);
    var s := g + "," + f;
    forall i | 0 <= i < |s| ensures s[i] != ' ' && s[i] != '-' {
      if i < |g| { assert s[i] == g[i]; } else if i > |g| { assert s[i] == f[i - |g| - 1]; }
    }
  }

  /** No text means `"N/A"`, which holds no separator. */
  lemma MissingCells()
    ensures SafeParsePriceDate(Element(None)).None?
    ensures SafeParsePriceDateTime(Element(None)).None?
    ensures DefaultParsePriceDateTime(Element(None)) == PriceDateTimeReference(None, None)
  {
    var na := "N/A";
    forall j: nat ensures !OccursAt(na, " - ", j) && !OccursAt(na, "-", j) {
      if j < 3 { assert na[j..j + 1][0] == na[j]; }
      if j == 0 { assert na[j..j + 3][0] == 'N'; }
    }
    assert SplitOnce(na, " - ").None? && SplitOnce(na, "-").None?;
  }

  /** A price without `-`, a `-`, and a date-time: each part trimmed and
      parsed on its own. */
  lemma PriceDateTimeSplit(price: string, datetime: string)
    requires forall i :: 0 <= i < |price| ==> price[i] != '-'
    ensures SafeParsePriceDateTime(Element(Some(price + "-" + datetime)))
         == Some(PriceDateTimeReference(ParseFloat(Trim(price)), ParseDatetime(Trim(datetime))))
  {
    SplitOnceFirst(price, "-", datetime);
  }

  lemma EmptyPrice()
    ensures ParseFloat(Trim("")) == None
  {
    assert Trim("") == "";
    NoTextParsesNothing();
  }

  /** The split at the first `-` loses the price of a negative value. */
  lemma NegativePriceLost(rest: string)
    ensures SafeParsePriceDateTime(Element(Some("-" + rest)))
         == Some(PriceDateTimeReference(None, ParseDatetime(Trim(rest))))
  {
    var empty: string := [];
    assert empty + "-" + rest == "-" + rest;
    PriceDateTimeSplit(empty, rest);
    EmptyPrice();
  }

  /** The default cell keeps both parts present, with 0 for an unreadable
      price and the default date-time for an unreadable date-time: a negative
      price is stored as 0. */
  lemma DefaultNegativePrice(rest: string)
    ensures DefaultParsePriceDateTime(Element(Some("-" + rest)))
         == PriceDateTimeReference(Some(Finite(0.0)), Some(ParseDatetime(Trim(rest)).GetOr(DefaultDateTime)))
  {
    NegativePriceLost(rest);
  }
}
