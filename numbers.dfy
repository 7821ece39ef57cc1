/** The number syntaxes the scraper hands its text to: Rust's `f64` and
    unsigned-integer `FromStr`, Java's `Double.valueOf` and
    `Integer.valueOf`, and the "dots as thousands separator" regular
    expression `^(\d{1,3})(\.?\d{3})*(,\d+)?$` used by both code bases.
    Numbers are kept exact (`real`); rounding to a binary double is not
    modelled. */
module Numbers {
  import opened Common

  /** A parsed floating-point value. `Finite` holds the exact decimal value
      that the text denotes. */
  datatype Float = Finite(val: real) | Infinite(negative: bool) | NaN {

    /** Unary minus on a double. */
    function Negate(): (r: Float)
      ensures r.Finite? <==> Finite?
      ensures Finite? ==> r.val == -val
      ensures NaN? <==> r.NaN?
      ensures Infinite? ==> r == Infinite(!negative)
    {
      match this
      case Finite(v) => Finite(-v)
      case Infinite(n) => Infinite(!n)
      case NaN => NaN
    }
  }

  const I32_MIN: int := -0x8000_0000
  const I32_MAX: int := 0x7FFF_FFFF

  /** Rust's and Java's 32-bit signed integers. */
  type I32 = x: int | I32_MIN <= x <= I32_MAX

  const U64_BOUND: int := 0x1_0000_0000_0000_0000

  function DigitValue(c: char): (r: nat)
    requires IsDigit(c)
    ensures r < 10
  {
    c as int - '0' as int
  }

  /** The value of a string of decimal digits, most significant first. */
  function DigitsValue(s: string): (r: nat)
    requires AllDigits(s)
    ensures r < Pow10(|s|)
  {
    if s == [] then 0 else DigitsValue(s[..|s| - 1]) * 10 + DigitValue(s[|s| - 1])
  }

  function Pow10(n: nat): (r: nat)
    ensures r >= 1
  {
    if n == 0 then 1 else 10 * Pow10(n - 1)
  }

  function DigitChar(n: nat): (c: char)
    requires n < 10
    ensures IsDigit(c) && DigitValue(c) == n
  {
    ('0' as int + n) as char
  }

  /** The decimal rendering of a number without leading zeros (Rust's and
      Java's `to_string` of an unsigned integer). */
  function DecimalString(n: nat): (r: string)
    ensures r != [] && AllDigits(r) && DigitsValue(r) == n
    ensures n >= 10 ==> r[0] != '0'
  {
    if n < 10 then [DigitChar(n)]
    else
      var r := DecimalString(n / 10) + [DigitChar(n % 10)];
      assert r[..|r| - 1] == DecimalString(n / 10);
      r
  }

  /** `m * 10^e`, exactly. */
  function Scale(m: nat, e: int): real {
    if e >= 0 then (m * Pow10(e)) as real else m as real / Pow10(-e) as real
  }

  /** The value of `whole "." frac` as an exact decimal. */
  function DecimalValue(whole: string, frac: string): real
    requires AllDigits(whole) && AllDigits(frac)
  {
    DigitsValue(whole) as real + DigitsValue(frac) as real / Pow10(|frac|) as real
  }

  /** `Digits`, `Digits "."`, `Digits "." Digits` or `"." Digits`: the digit
      value and the number of digits after the point. */
  function ParseMantissa(s: string): Option<(nat, nat)> {
    match SplitOnce(s, ".")
    case None => if s != [] && AllDigits(s) then Some((DigitsValue(s), 0)) else None
    case Some((i, f)) =>
      if AllDigits(i) && AllDigits(f) && |i| + |f| >= 1 then Some((DigitsValue(i) * Pow10(|f|) + DigitsValue(f), |f|))
      else None
  }

  /** An optionally signed, non-empty run of digits. */
  function ParseExponent(s: string): Option<int> {
    var (neg, digits) := if s != [] && (s[0] == '+' || s[0] == '-') then (s[0] == '-', s[1..]) else (false, s);
    if digits != [] && AllDigits(digits) then
      var v: int := if neg then -(DigitsValue(digits) as int) else DigitsValue(digits);
      Some(v)
    else None
  }

  function FindExponentMark(s: string): (r: Option<nat>)
    ensures r.Some? ==> r.value < |s| && (s[r.value] == 'e' || s[r.value] == 'E')
    ensures r.Some? ==> forall j :: 0 <= j < r.value ==> s[j] != 'e' && s[j] != 'E'
    ensures r.None? ==> forall j :: 0 <= j < |s| ==> s[j] != 'e' && s[j] != 'E'
  {
    if s == [] then None
    else if s[0] == 'e' || s[0] == 'E' then Some(0)
    else match FindExponentMark(s[1..]) { case None => None case Some(k) => Some(k + 1) }
  }

  /** An unsigned decimal literal with an optional exponent, the common core of
      Rust's and Java's floating-point syntax. */
  function ParseUnsignedDecimal(s: string): Option<real> {
    var (m, e) := match FindExponentMark(s) {
      case None => (ParseMantissa(s), Some(0))
      case Some(k) => (ParseMantissa(s[..k]), ParseExponent(s[k + 1..]))
    };
    if m.Some? && e.Some? then Some(Scale(m.value.0, e.value - m.value.1)) else None
  }

  /** Rust's `str::parse::<f64>`: an optional sign, then `inf`, `infinity`,
      `nan` (any case) or a decimal literal. No surrounding whitespace. */
  function RustParseF64(s: string): Option<Float> {
    var (neg, body) := if s != [] && (s[0] == '+' || s[0] == '-') then (s[0] == '-', s[1..]) else (false, s);
    var lower := ToLower(body);
    if lower == "inf" || lower == "infinity" then Some(Infinite(neg))
    else if lower == "nan" then Some(NaN)
    else match ParseUnsignedDecimal(body) {
      case None => None
      case Some(v) => Some(Finite(if neg then -v else v))
    }
  }

  /** Rust's `str::parse` for an unsigned integer type whose values lie below
      `bound`: an optional `+`, then at least one digit. */
  function RustParseUnsigned(s: string, bound: nat): (r: Option<nat>)
    ensures r.Some? ==> r.value < bound
  {
    var digits := if s != [] && s[0] == '+' then s[1..] else s;
    if digits != [] && AllDigits(digits) && DigitsValue(digits) < bound then Some(DigitsValue(digits)) else None
  }

  /** Java's `String.trim`: strips every leading and trailing character up to U+0020. */
  function JavaTrim(s: string): (r: string)
    ensures |r| <= |s|
    ensures r == [] || (r[0] > ' ' && r[|r| - 1] > ' ')
  {
    if s != [] && s[0] <= ' ' then JavaTrim(s[1..])
    else if s != [] && s[|s| - 1] <= ' ' then JavaTrim(s[..|s| - 1])
    else s
  }

  /** Java's `Double.valueOf(String)` for decimal input: surrounding blanks are
      dropped, then an optional sign and `NaN`, `Infinity` or a decimal literal
      with an optional `f`, `F`, `d` or `D` suffix; `None` stands for the
      `NumberFormatException`. */
  function JavaDoubleValueOf(s: string): Option<Float> {
    var t := JavaTrim(s);
    var (neg, body) := if t != [] && (t[0] == '+' || t[0] == '-') then (t[0] == '-', t[1..]) else (false, t);
    if body == "NaN" then Some(NaN)
    else if body == "Infinity" then Some(Infinite(neg))
    else
      var literal := if body != [] && body[|body| - 1] in "fFdD" then body[..|body| - 1] else body;
      match ParseUnsignedDecimal(literal) {
        case None => None
        case Some(v) => Some(Finite(if neg then -v else v))
      }
  }

  /** Java's `Integer.valueOf(String)`: an optional sign and at least one digit,
      within the range of a 32-bit `int`; `None` stands for the exception. */
  function JavaIntegerValueOf(s: string): (r: Option<int>)
    ensures r.Some? ==> I32_MIN <= r.value <= I32_MAX
  {
    var (neg, digits) := if s != [] && (s[0] == '+' || s[0] == '-') then (s[0] == '-', s[1..]) else (false, s);
    if digits != [] && AllDigits(digits) then
      var v: int := if neg then -(DigitsValue(digits) as int) else DigitsValue(digits);
      if I32_MIN <= v <= I32_MAX then Some(v) else None
    else None
  }

  // The regular expression ^(\d{1,3})(\.?\d{3})*(,\d+)?$, anchored at both ends.

  /** `,\d+` */
  predicate DecimalTail(t: string) {
    |t| >= 2 && t[0] == ',' && AllDigits(t[1..])
  }

  /** `(\.?\d{3})*(,\d+)?` */
  predicate GroupTail(t: string)
    decreases |t|
  {
    t == [] || DecimalTail(t)
    || (|t| >= 4 && t[0] == '.' && AllDigits(t[1..4]) && GroupTail(t[4..]))
    || (|t| >= 3 && AllDigits(t[..3]) && GroupTail(t[3..]))
  }

  /** The whole expression: one to three leading digits, then `GroupTail`. */
  predicate MatchesThousandsPattern(s: string) {
    || (|s| >= 1 && AllDigits(s[..1]) && GroupTail(s[1..]))
    || (|s| >= 2 && AllDigits(s[..2]) && GroupTail(s[2..]))
    || (|s| >= 3 && AllDigits(s[..3]) && GroupTail(s[3..]))
  }

  /** `(\.?\d{3})*`: the groups alone, without a decimal part. */
  predicate Groups(t: string)
    decreases |t|
  {
    t == []
    || (|t| >= 4 && t[0] == '.' && AllDigits(t[1..4]) && Groups(t[4..]))
    || (|t| >= 3 && AllDigits(t[..3]) && Groups(t[3..]))
  }

  /** `(\d{1,3})(\.?\d{3})*`: an integer written with optional dots between groups of three. */
  predicate GroupedInteger(g: string) {
    exists k :: 1 <= k <= 3 && k <= |g| && AllDigits(g[..k]) && Groups(g[k..])
  }

  lemma {:induction false} GroupsExtend(t: string, f: string)
    requires Groups(t) && f != [] && AllDigits(f)
    ensures GroupTail(t) && GroupTail(t + "," + f)
    decreases |t|
  {
    if t == [] {
      assert (t + "," + f)[1..] == f;
    } else if |t| >= 4 && t[0] == '.' && AllDigits(t[1..4]) && Groups(t[4..]) {
      GroupsExtend(t[4..], f);
      DotGroupExtends(t, f);
    } else {
      GroupsExtend(t[3..], f);
      PlainGroupExtends(t, f);
    }
  }

  lemma DotGroupExtends(t: string, f: string)
    requires |t| >= 4 && t[0] == '.' && AllDigits(t[1..4])
    requires GroupTail(t[4..]) && GroupTail(t[4..] + "," + f)
    ensures GroupTail(t) && GroupTail(t + "," + f)
  {
    var s := t + "," + f;
    assert s[4..] == t[4..] + "," + f;
    assert s[1..4] == t[1..4];
  }

  lemma PlainGroupExtends(t: string, f: string)
    requires |t| >= 3 && AllDigits(t[..3])
    requires GroupTail(t[3..]) && GroupTail(t[3..] + "," + f)
    ensures GroupTail(t) && GroupTail(t + "," + f)
  {
    var s := t + "," + f;
    assert s[3..] == t[3..] + "," + f;
    assert s[..3] == t[..3];
  }

  /** The extension of the expression: a grouped integer, optionally followed
      by a comma and a non-empty run of decimals. */
  lemma GroupedIntegerMatches(g: string, f: string)
    requires GroupedInteger(g) && AllDigits(f)
    ensures MatchesThousandsPattern(g)
    ensures f != [] ==> MatchesThousandsPattern(g + "," + f)
  {
    var k :| 1 <= k <= 3 && k <= |g| && AllDigits(g[..k]) && Groups(g[k..]);
    GroupsExtend(g[k..], if f == [] then "0" else f);
    MatchesAt(g, k);
    if f != [] {
      var s := g + "," + f;
      CommaSlices(g, k, f);
      MatchesAt(s, k);
    }
  }

  /** Leading digits `s[..k]`, one to three of them, followed by a group tail. */
  lemma MatchesAt(s: string, k: nat)
    requires 1 <= k <= 3 && k <= |s| && AllDigits(s[..k]) && GroupTail(s[k..])
    ensures MatchesThousandsPattern(s)
  {
  }

  lemma CommaSlices(g: string, k: nat, f: string)
    requires k <= |g|
    ensures (g + "," + f)[..k] == g[..k] && (g + "," + f)[k..] == g[k..] + "," + f
  {
    var s := g + "," + f;
    assert g == g[..k] + g[k..];
    assert s == g[..k] + (g[k..] + "," + f);
  }

  lemma {:induction false} GroupsChars(t: string)
    requires Groups(t)
    ensures forall i :: 0 <= i < |t| ==> IsDigit(t[i]) || t[i] == '.'
    decreases |t|
  {
    if t == [] {
    } else if |t| >= 4 && t[0] == '.' && AllDigits(t[1..4]) && Groups(t[4..]) {
      GroupsChars(t[4..]);
      forall i | 0 <= i < |t| ensures IsDigit(t[i]) || t[i] == '.' {
        if 1 <= i < 4 { assert t[i] == t[1..4][i - 1]; }
        else if i >= 4 { assert t[i] == t[4..][i - 4]; }
      }
    } else {
      GroupsChars(t[3..]);
      forall i | 0 <= i < |t| ensures IsDigit(t[i]) || t[i] == '.' {
        if i < 3 { assert t[i] == t[..3][i]; }
        else { assert t[i] == t[3..][i - 3]; }
      }
    }
  }

  /** A grouped integer is made of digits and dots and starts with a digit. */
  lemma GroupedIntegerChars(g: string)
    requires GroupedInteger(g)
    ensures g != [] && IsDigit(g[0]) && IsDigit(g[|g| - 1])
    ensures forall i :: 0 <= i < |g| ==> IsDigit(g[i]) || g[i] == '.'
  {
    var k :| 1 <= k <= 3 && k <= |g| && AllDigits(g[..k]) && Groups(g[k..]);
    assert g[0] == g[..k][0];
    GroupsChars(g[k..]);
    if k == |g| { assert g[|g| - 1] == g[..k][k - 1]; } else { GroupsLastDigit(g[k..]); assert g[|g| - 1] == g[k..][|g| - k - 1]; }
    forall i | 0 <= i < |g| ensures IsDigit(g[i]) || g[i] == '.' {
      if i < k { assert g[i] == g[..k][i]; } else { assert g[i] == g[k..][i - k]; }
    }
  }

  lemma {:induction false} GroupsLastDigit(t: string)
    requires Groups(t) && t != []
    ensures IsDigit(t[|t| - 1])
    decreases |t|
  {
    if |t| >= 4 && t[0] == '.' && AllDigits(t[1..4]) && Groups(t[4..]) {
      if |t| == 4 { assert t[3] == t[1..4][2]; } else { GroupsLastDigit(t[4..]); assert t[|t| - 1] == t[4..][|t| - 5]; }
    } else {
      if |t| == 3 { assert t[2] == t[..3][2]; } else { GroupsLastDigit(t[3..]); assert t[|t| - 1] == t[3..][|t| - 4]; }
    }
  }

  lemma AllDigitsNoMarks(s: string)
    requires AllDigits(s)
    ensures !Contains(s, ".") && FindExponentMark(s).None?
  {
  }

  /** The first point of `i "." f` is the one between `i` and `f`. */
  lemma PointSplit(i: string, f: string)
    requires AllDigits(i)
    ensures SplitOnce(i + "." + f, ".") == Some((i, f))
  {
    var s := i + "." + f;
    assert OccursAt(s, ".", |i|);
    forall j | 0 <= j < |i| ensures !OccursAt(s, ".", j) {
      assert s[j] == i[j];
      assert s[j..j + 1] == [s[j]];
    }
    assert s[..|i|] == i && s[|i| + 1..] == f;
  }

  lemma NoExponentMark(i: string, f: string)
    requires AllDigits(i) && AllDigits(f)
    ensures FindExponentMark(i + "." + f).None?
  {
    var s := i + "." + f;
    forall j | 0 <= j < |s| ensures s[j] != 'e' && s[j] != 'E' {
      if j < |i| { assert s[j] == i[j]; } else if j > |i| { assert s[j] == f[j - |i| - 1]; }
    }
  }

  lemma ScaleDecimal(i: string, f: string)
    requires AllDigits(i) && AllDigits(f)
    ensures Scale(DigitsValue(i) * Pow10(|f|) + DigitsValue(f), 0 - |f|) == DecimalValue(i, f)
  {
    ScaleParts(DigitsValue(i), DigitsValue(f), |f|);
    assert DecimalValue(i, f) == DigitsValue(i) as real + DigitsValue(f) as real / Pow10(|f|) as real;
  }

  lemma ScaleParts(x: nat, z: nat, k: nat)
    ensures Scale(x * Pow10(k) + z, 0 - k) == x as real + z as real / Pow10(k) as real
  {
    var y := Pow10(k);
    var m := x * y + z;
    ScaleNegative(m, k);
    assert m as real == x as real * y as real + z as real by { MulAsReal(x, y); }
    DivideSum(m as real, x as real, z as real, y as real);
  }

  lemma ScaleNegative(m: nat, k: nat)
    ensures Scale(m, 0 - k) == m as real / Pow10(k) as real
  {
    if k == 0 {
      assert Scale(m, 0) == (m * 1) as real;
    }
  }

  lemma MulAsReal(x: nat, y: nat)
    ensures (x * y) as real == x as real * y as real
  {
  }

  lemma DivideSum(m: real, a: real, b: real, p: real)
    requires p > 0.0 && m == a * p + b
    ensures m / p == a + b / p
  {
  }

  /** Digits, a point and digits denote their decimal value, in Rust's and in
      Java's syntax alike. */
  lemma ParsePointedDigits(i: string, f: string)
    requires AllDigits(i) && AllDigits(f) && |i| + |f| >= 1
    ensures ParseUnsignedDecimal(i + "." + f) == Some(DecimalValue(i, f))
  {
    PointSplit(i, f);
    NoExponentMark(i, f);
    ScaleDecimal(i, f);
  }

  /** Digits, a point, then digits broken by a blank: not a number. */
  lemma ParseBlankAfterPoint(i: string, y: string, z: string)
    requires AllDigits(i) && AllDigits(y) && AllDigits(z)
    ensures ParseUnsignedDecimal(i + "." + (y + " " + z)).None?
  {
    var f := y + " " + z;
    var s := i + "." + f;
    assert !AllDigits(f) by { assert f[|y|] == ' '; }
    PointSplit(i, f);
    forall j | 0 <= j < |s| ensures s[j] != 'e' && s[j] != 'E' {
      if j < |i| { assert s[j] == i[j]; }
      else if j > |i| {
        assert s[j] == f[j - |i| - 1];
        if j - |i| - 1 < |y| { assert f[j - |i| - 1] == y[j - |i| - 1]; }
        else if j - |i| - 1 > |y| { assert f[j - |i| - 1] == z[j - |i| - 2 - |y|]; }
      }
    }
  }

  /** A run of digits denotes its value. */
  lemma ParseDigits(i: string)
    requires AllDigits(i) && i != []
    ensures ParseUnsignedDecimal(i) == Some(DigitsValue(i) as real)
  {
    AllDigitsNoMarks(i);
    assert Scale(DigitsValue(i), 0) == DigitsValue(i) as real;
  }
}
