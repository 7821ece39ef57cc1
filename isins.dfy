/** ISIN identity (`scraper/src/isins/types.rs`): the 12-character code
    split into country, national number and check digit, the pair of a share
    name and its ISIN, and the ways one is obtained from a listing anchor or
    a database row.

    Rust measures `&str` lengths and slices in UTF-8 bytes, and slicing at a
    byte that falls inside a character panics; the model measures bytes the
    same way and reports such a panic as `SlicePanic`. */
module Isins {
  import opened Common
  import opened Numbers

  /** A slice boundary fell inside a multi-byte character. */
  datatype SlicePanic = SlicePanic

  datatype Isin = Isin(country: string, nna: string, check: nat)

  /** `Isin::default()`. */
  const DefaultIsin: Isin := Isin("", "", 0)

  datatype ShareIsin = ShareIsin(shareName: string, isin: Isin)

  /** The number of UTF-8 bytes of one character. */
  function Utf8Width(c: char): (w: nat)
    ensures 1 <= w <= 4 && (w == 1 <==> c as int < 0x80)
  {
    if c as int < 0x80 then 1 else if c as int < 0x800 then 2 else if c as int < 0x1_0000 then 3 else 4
  }

  /** `str::len`: the number of UTF-8 bytes. */
  function ByteLen(s: string): (n: nat)
    ensures n >= |s|
  {
    if s == [] then 0 else Utf8Width(s[0]) + ByteLen(s[1..])
  }

  /** The number of characters that take up the first `b` bytes of `s`, or
      `None` when byte `b` falls inside a character or past the end. */
  function CharsInBytes(s: string, b: nat): (r: Option<nat>)
    ensures r.Some? ==> r.value <= |s| && ByteLen(s[..r.value]) == b
  {
    if b == 0 then Some(0)
    else if s == [] || Utf8Width(s[0]) > b then None
    else match CharsInBytes(s[1..], b - Utf8Width(s[0]))
      case None => None
      case Some(k) =>
        assert s[..k + 1] == [s[0]] + s[1..][..k];
        Some(k + 1)
  }

  /** `Isin::new`: a string of 12 bytes whose last byte is a decimal digit,
      split at bytes 2 and 11; any other length gives `None`; a split inside a
      character panics. */
  function New(s: string): (r: Result<Option<Isin>, SlicePanic>)
    ensures ByteLen(s) != 12 ==> r == Ok(None)
    ensures r.Ok? && r.value.Some? ==>
      && s == r.value.value.country + r.value.value.nna + [s[|s| - 1]]
      && ByteLen(r.value.value.country) == 2 && ByteLen(r.value.value.nna) == 9
      && IsDigit(s[|s| - 1]) && r.value.value.check == s[|s| - 1] as int - '0' as int
  {
    if ByteLen(s) != 12 then Ok(None)
    else match (CharsInBytes(s, 2), CharsInBytes(s, 11))
      case (Some(c), Some(n)) =>
        if n < c then Err(SlicePanic)
        else
          SplitBytes(s, n);
          PrefixBytes(s, c, n);
          assert |s| == n + 1;
          var country := s[..c];
          var nna := s[c..n];
          var check := s[n..];
          assert s == country + nna + check;
          if IsDigit(check[0]) then Ok(Some(Isin(country, nna, check[0] as int - '0' as int))) else Ok(None)
      case _ => Err(SlicePanic)
  }

  /** `Isin::get_str`: the three parts written one after the other. */
  function GetStr(i: Isin): string {
    i.country + i.nna + DecimalString(i.check)
  }

  lemma {:induction false} ByteLenAppend(a: string, b: string)
    ensures ByteLen(a + b) == ByteLen(a) + ByteLen(b)
  {
    if a == [] {
      assert a + b == b;
    } else {
      assert (a + b)[1..] == a[1..] + b;
      ByteLenAppend(a[1..], b);
    }
  }

  /** With `n` characters in the first `ByteLen(s) - 1` bytes, one one-byte
      character is left. */
  lemma SplitBytes(s: string, n: nat)
    requires n <= |s| && ByteLen(s[..n]) + 1 == ByteLen(s)
    ensures |s| == n + 1 && Utf8Width(s[n]) == 1
  {
    assert s == s[..n] + s[n..];
    ByteLenAppend(s[..n], s[n..]);
    assert ByteLen(s[n..]) == 1;
    assert s[n..][1..] == s[n + 1..];
  }

  /** Byte lengths of prefixes grow with the number of characters, and so
      do the parts between two boundaries. */
  lemma PrefixBytes(s: string, c: nat, n: nat)
    requires c <= |s| && n <= |s| && ByteLen(s[..c]) <= ByteLen(s[..n])
    ensures c <= n
    ensures c <= n ==> ByteLen(s[c..n]) == ByteLen(s[..n]) - ByteLen(s[..c])
  {
    if n < c {
      assert s[..c] == s[..n] + s[n..c];
      ByteLenAppend(s[..n], s[n..c]);
    }
    assert s[..n] == s[..c] + s[c..n];
    ByteLenAppend(s[..c], s[c..n]);
  }

  /** A split at the byte length of a prefix lands after that prefix. */
  lemma {:induction false} CharsInBytesOfPrefix(a: string, b: string)
    ensures CharsInBytes(a + b, ByteLen(a)) == Some(|a|)
  {
    if a != [] {
      assert (a + b)[1..] == a[1..] + b;
      CharsInBytesOfPrefix(a[1..], b);
    }
  }

  /** `Isin::new` followed by `get_str` gives back the input. */
  lemma NewThenGetStr(s: string)
    requires New(s).Ok? && New(s).value.Some?
    ensures GetStr(New(s).value.value) == s
  {
  }

  /** `get_str` followed by `Isin::new` gives back the ISIN, for parts of 2
      and 9 bytes and a single-digit check. */
  lemma GetStrThenNew(i: Isin)
    requires ByteLen(i.country) == 2 && ByteLen(i.nna) == 9 && i.check < 10
    ensures New(GetStr(i)) == Ok(Some(i))
  {
    var s := GetStr(i);
    ByteLenAppend(i.country, i.nna);
    ByteLenAppend(i.country + i.nna, [DigitChar(i.check)]);
    assert ByteLen([DigitChar(i.check)]) == 1;
    assert s == i.country + (i.nna + [DigitChar(i.check)]);
    CharsInBytesOfPrefix(i.country, i.nna + [DigitChar(i.check)]);
    CharsInBytesOfPrefix(i.country + i.nna, [DigitChar(i.check)]);
    assert s[..|i.country|] == i.country;
  }

  /** On ASCII text `Isin::new` never panics: twelve characters with a digit
      last give `Some`, anything else `None`; the parts are those at [0, 2),
      [2, 11) and 11. */
  lemma NewAscii(s: string)
    requires forall i :: 0 <= i < |s| ==> s[i] as int < 0x80
    ensures New(s).Ok?
    ensures New(s).value.Some? <==> |s| == 12 && IsDigit(s[11])
    ensures New(s).value.Some? ==> New(s).value.value == Isin(s[..2], s[2..11], s[11] as int - '0' as int)
  {
    AsciiBytes(s);
    if |s| == 12 {
      AsciiBytes(s[..2]);
      AsciiBytes(s[..11]);
      assert s == s[..2] + s[2..];
      assert s == s[..11] + s[11..];
      CharsInBytesOfPrefix(s[..2], s[2..]);
      CharsInBytesOfPrefix(s[..11], s[11..]);
    }
  }

  lemma {:induction false} AsciiBytes(s: string)
    requires forall i :: 0 <= i < |s| ==> s[i] as int < 0x80
    ensures ByteLen(s) == |s|
  {
    if s != [] {
      AsciiBytes(s[1..]);
    }
  }

  /** A 12-byte string with a character across byte 2 or byte 11 panics. */
  lemma NewPanics(s: string)
    requires ByteLen(s) == 12 && (CharsInBytes(s, 2).None? || CharsInBytes(s, 11).None?)
    ensures New(s) == Err(SlicePanic)
  {
  }

  /** `ShareIsin::new`: `None` for an empty name, otherwise the name paired
      with `Isin::new` of the code. */
  function NewShareIsin(name: string, isinStr: string): (r: Result<Option<ShareIsin>, SlicePanic>)
    ensures name == [] ==> r == Ok(None)
    ensures name != [] ==> (r.Ok? <==> New(isinStr).Ok?)
    ensures name != [] && r.Ok? ==> (r.value.Some? <==> New(isinStr).value.Some?)
    ensures r.Ok? && r.value.Some? ==> r.value.value == ShareIsin(name, New(isinStr).value.value)
  {
    if name == [] then Ok(None)
    else match New(isinStr)
      case Err(p) => Err(p)
      case Ok(None) => Ok(None)
      case Ok(Some(isin)) => Ok(Some(ShareIsin(name, isin)))
  }

  /** The listing's anchor: its `href` attribute, if any, and its
      `span.t-text` child, if any, given by that child's first text node. */
  datatype Anchor = Anchor(href: Option<string>, nameSpan: Option<Option<string>>)

  /** The ISIN candidate of a share link: the text after the last `/`, up to
      its first `.`. */
  function IsinFromHref(link: string): (r: string)
    ensures forall i :: 0 <= i < |r| ==> r[i] != '/' && r[i] != '.'
  {
    FirstSegment(LastSegment(link, '/'), '.')
  }

  /** The characterisation of the candidate: `link` is some text, a `/`
      unless the link has none, the candidate, and nothing or a `.` followed
      by text without `/`. */
  lemma IsinFromHrefShape(link: string)
    ensures var r := IsinFromHref(link); var last := LastSegment(link, '/');
      && link == link[..|link| - |last|] + last
      && (|last| < |link| ==> link[|link| - |last| - 1] == '/')
      && last[..|r|] == r
      && (|r| < |last| ==> last[|r|] == '.')
      && (forall i :: 0 <= i < |last| ==> last[i] != '/')
  {
  }

  /** A link `path/code.ext` whose code has no `/` or `.` and whose
      extension has no `/` yields the code, such as `IT0005380046` from
      `/borsa/azioni/scheda/IT0005380046.html`. */
  lemma IsinFromHrefOfLink(path: string, code: string, ext: string)
    requires forall i :: 0 <= i < |code| ==> code[i] != '/' && code[i] != '.'
    requires forall i :: 0 <= i < |ext| ==> ext[i] != '/'
    ensures IsinFromHref(path + "/" + code + "." + ext) == code
  {
    var link := path + "/" + code + "." + ext;
    var last := code + "." + ext;
    assert link == path + "/" + last;
    assert link[|path|] == '/';
    var k := LastIndexOf(link, '/');
    assert k.Some? && k.value == |path|;
    assert LastSegment(link, '/') == last;
    var r := FirstSegment(last, '.');
    assert last[|code|] == '.';
    assert r == last[..|code|] == code;
  }

  /** `ShareIsin::from_element`: both the link and the name span are needed;
      a span without text gives the empty name, which `ShareIsin::new` rejects. */
  function FromElement(a: Anchor): (r: Result<Option<ShareIsin>, SlicePanic>)
    ensures a.href.None? || a.nameSpan.None? ==> r == Ok(None)
    ensures a.href.Some? && a.nameSpan.Some? ==> r == NewShareIsin(a.nameSpan.value.GetOr(""), IsinFromHref(a.href.value))
  {
    match (a.href, a.nameSpan)
    case (Some(link), Some(text)) => NewShareIsin(text.GetOr(""), IsinFromHref(link))
    case _ => Ok(None)
  }

  /** A stored row, both columns nullable. */
  datatype DbShareIsin = DbShareIsin(shareName: Option<string>, isin: Option<string>)

  /** `ShareIsin::from_db`: `Some` only when both columns are present and the
      code is a valid ISIN; unlike `new`, an empty name is accepted. */
  function FromDb(row: DbShareIsin): (r: Result<Option<ShareIsin>, SlicePanic>)
    ensures r.Ok? && r.value.Some? <==>
      row.shareName.Some? && row.isin.Some? && New(row.isin.value).Ok? && New(row.isin.value).value.Some?
    ensures r.Ok? && r.value.Some? ==> r.value.value == ShareIsin(row.shareName.value, New(row.isin.value).value.value)
  {
    match (row.shareName, row.isin)
    case (Some(name), Some(code)) =>
      (match New(code)
       case Err(p) => Err(p)
       case Ok(None) => Ok(None)
       case Ok(Some(isin)) => Ok(Some(ShareIsin(name, isin))))
    case _ => Ok(None)
  }

  /** A stored row of a valid share gives it back, whatever its name. */
  lemma FromDbRoundTrip(s: ShareIsin)
    requires ByteLen(s.isin.country) == 2 && ByteLen(s.isin.nna) == 9 && s.isin.check < 10
    ensures FromDb(DbShareIsin(Some(s.shareName), Some(GetStr(s.isin)))) == Ok(Some(s))
  {
    GetStrThenNew(s.isin);
  }
}
