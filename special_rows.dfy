/** The Java parser's special rows (`SpecialRows.java`): the right-hand rows
    whose cell holds a price with the date it refers to (`1234,56 - 04/11/24`),
    and the rows holding performance percentages. Both insert helpers read the
    cell's text and write typed values into the share's property map
    through `ShareProps.rowToProp`.

    A Java exception thrown by a helper is returned as a `Fault`; the share
    is then left as it was, since every exception is raised before the
    first write. */
module SpecialRows {
  import opened Common
  import opened Numbers
  import opened Dates
  import opened JavaScraper
  import opened ShareProps

  const YEAR_INFO_SIDE: string := "right"
  const YEAR_INFO_ROWS: seq<int> := [3, 5]
  const REFERENCE_PRICE_SIDE: string := "right"
  const REFERENCE_PRICE_ROW: int := 7
  const UFFICIAL_PRICE_SIDE: string := "right"
  const UFFICIAL_PRICE_ROW: int := 8
  const PERFORMANCE_INFO_SIDE: string := "right"
  const PERFORMANCE_INFO_ROWS: seq<int> := [10, 11, 12]

  predicate IsYearRow(side: string, row: int) {
    side == YEAR_INFO_SIDE && row in YEAR_INFO_ROWS
  }

  predicate IsReferencePriceRow(side: string, row: int) {
    side == REFERENCE_PRICE_SIDE && row == REFERENCE_PRICE_ROW
  }

  predicate IsUfficialPriceRow(side: string, row: int) {
    side == UFFICIAL_PRICE_SIDE && row == UFFICIAL_PRICE_ROW
  }

  predicate IsPriceDateReferenceRow(side: string, row: int) {
    IsYearRow(side, row) || IsReferencePriceRow(side, row) || IsUfficialPriceRow(side, row)
  }

  predicate IsPerformanceRow(side: string, row: int) {
    side == PERFORMANCE_INFO_SIDE && row in PERFORMANCE_INFO_ROWS
  }

  /** The price-date rows are right rows 3, 5, 7 and 8: exactly the places
      whose `rowToProp` entry names two properties. */
  lemma PriceDateRows(side: string, row: int)
    ensures IsPriceDateReferenceRow(side, row) <==> side == "right" && (row == 3 || row == 5 || row == 7 || row == 8)
    ensures IsPriceDateReferenceRow(side, row) <==> IsPairPlace(side, row)
  {
  }

  /** The performance rows are right rows 10, 11 and 12, places of the page
      with one property each, and never price-date rows. */
  lemma PerformanceRows(side: string, row: int)
    ensures IsPerformanceRow(side, row) <==> side == "right" && 10 <= row <= 12
    ensures IsPerformanceRow(side, row) ==> IsPlace(side, row) && !IsPriceDateReferenceRow(side, row)
  {
  }

  // The share

  /** Why a helper stopped: `getInstance()` before the scraper exists, a
      `null` entry of `rowToProp`, or an index past the end of a split. */
  datatype Fault = IllegalState(message: string) | NullPointer | IndexOutOfBounds

  /** One `setProperty(key, value)`; a `None` key is Java's `null`, which a
      `HashMap` accepts, and a `None` value is a `null` value. */
  datatype Put = Put(key: Option<string>, value: Option<Value>)

  /** The puts applied in order. */
  function Apply(m: map<Option<string>, Option<Value>>, puts: seq<Put>): map<Option<string>, Option<Value>>
    decreases |puts|
  {
    if puts == [] then m else Apply(m[puts[0].key := puts[0].value], puts[1..])
  }

  /** The property map of a share. */
  class Share {
    var properties: map<Option<string>, Option<Value>>

    constructor ()
      ensures properties == map[]
    {
      properties := map[];
    }

    /** `getProperty`: `null` for a key never set. */
    function GetProperty(key: Option<string>): (r: Option<Value>)
      reads this
      ensures key !in properties ==> r.None?
      ensures key in properties ==> r == properties[key]
    {
      if key in properties then properties[key] else None
    }

    /** `setProperty`: `HashMap.put`. */
    method SetProperty(key: Option<string>, value: Option<Value>)
      modifies this
      ensures properties == old(properties)[key := value]
    {
      properties := properties[key := value];
    }
  }

  /** `getStringContent(el)`: the element's text, `null` without an element. */
  function StringContent(el: Option<string>): (r: Option<string>)
    ensures r == el
  {
    match GetContentOrFallback(el, None, StringType)
    case Some(StringValue(text)) => Some(text)
    case _ => None
  }

  const UNINITIALISED: string := "Scraper instance must be initialized with an initial URL."

  // Price and date

  /** The two names `insertPriceDateReference` reads from `rowToProp`
      before it looks at the text: a missing entry is `null` and throws, and
      so does an entry with fewer than two parts. */
  function RowProps(row: int, side: string): Result<(string, string), Fault> {
    var key := RowKey(side, row);
    if key !in ROW_TO_PROP then Err(NullPointer)
    else
      var props := JavaSplit(ROW_TO_PROP[key], ",");
      if |props| < 2 then Err(IndexOutOfBounds)
      else Ok((Trim(props[0]), Trim(props[1])))
  }

  /** What `insertPriceDateReference` does with the text once it has the
      names `valueProp` and `dateProp`: the puts in order, or the exception
      of a text that `split(" - ")` cuts into nothing. */
  function TextWrites(valueProp: string, dateProp: string, text: Option<string>): (r: Result<seq<Put>, Fault>)
    ensures r.Ok? ==> |r.value| == 0 || |r.value| == 2
    ensures r.Ok? && |r.value| == 2 ==> r.value[0].key == Some(valueProp) && r.value[1].key == Some(dateProp)
  {
    if text.None? || text.value == "" || text.value == "-" then Ok([])
    else
      var arr := JavaSplit(text.value, " - ");
      if |arr| == 0 then Err(IndexOutOfBounds)
      else
        var value := Put(Some(valueProp), ConvertTextToType(arr[0], DoubleType));
        if |arr| < 2 then Ok([value, Put(Some(dateProp), None)])
        else if Contains(arr[1], " ") then Ok([value, Put(Some(dateProp), ConvertTextToType(arr[1], LocalDateTimeType))])
        else Ok([value, Put(Some(dateProp), ConvertTextToType(arr[1], LocalDateType))])
  }

  /** What `insertPriceDateReference` does when the scraper exists
      (`initialised`) and the element's text is `text`. */
  function PriceDateWrites(initialised: bool, text: Option<string>, row: int, side: string): Result<seq<Put>, Fault> {
    if !initialised then Err(IllegalState(UNINITIALISED))
    else match RowProps(row, side)
      case Err(f) => Err(f)
      case Ok((valueProp, dateProp)) => TextWrites(valueProp, dateProp, text)
  }

  /** `insertPriceDateReference(s, el, row, side)`. */
  method InsertPriceDateReference(holder: ScraperHolder, s: Share, el: Option<string>, row: int, side: string)
    returns (fault: Option<Fault>)
    modifies s
    ensures var w := PriceDateWrites(holder.instance.Some?, el, row, side);
            && (w.Err? ==> fault == Some(w.error) && s.properties == old(s.properties))
            && (w.Ok? ==> fault.None? && s.properties == Apply(old(s.properties), w.value))
  {
    var scraper := holder.CurrentInstance();
    if scraper.Err? {
      return Some(IllegalState(scraper.error));
    }
    var text := StringContent(el);
    var names := ReadNames(row, side);
    PriceDateStages(true, el, row, side);
    if names.Err? {
      return Some(names.error);
    }
    fault := InsertText(s, names.value.0, names.value.1, text);
  }

  /** The stages of `PriceDateWrites`: the scraper, then the names, then the text. */
  lemma PriceDateStages(initialised: bool, text: Option<string>, row: int, side: string)
    ensures !initialised ==> PriceDateWrites(initialised, text, row, side) == Err(IllegalState(UNINITIALISED))
    ensures initialised && RowProps(row, side).Err? ==> PriceDateWrites(initialised, text, row, side) == Err(RowProps(row, side).error)
    ensures initialised && RowProps(row, side).Ok? ==>
      PriceDateWrites(initialised, text, row, side) == TextWrites(RowProps(row, side).value.0, RowProps(row, side).value.1, text)
  {
  }

  /** The names `insertPriceDateReference` reads: the entry of
      `side + "_" + row`, split at its commas, the first two parts stripped. */
  method ReadNames(row: int, side: string) returns (r: Result<(string, string), Fault>)
    ensures r == RowProps(row, side)
  {
    var key := RowKey(side, row);
    if key !in ROW_TO_PROP {
      return Err(NullPointer);
    }
    var props := JavaSplit(ROW_TO_PROP[key], ",");
    if |props| < 2 {
      return Err(IndexOutOfBounds);
    }
    return Ok((Trim(props[0]), Trim(props[1])));
  }

  /** The part of `insertPriceDateReference` after the names are known. */
  method InsertText(s: Share, valueProp: string, dateProp: string, text: Option<string>) returns (fault: Option<Fault>)
    modifies s
    ensures var w := TextWrites(valueProp, dateProp, text);
            && (w.Err? ==> fault == Some(w.error) && s.properties == old(s.properties))
            && (w.Ok? ==> fault.None? && s.properties == Apply(old(s.properties), w.value))
  {
    if text.None? || text.value == "" || text.value == "-" {
      return None;
    }
    var arr := JavaSplit(text.value, " - ");
    if |arr| == 0 {
      return Some(IndexOutOfBounds);
    }
    var value := Put(Some(valueProp), ConvertTextToType(arr[0], DoubleType));
    var date: Put;
    if |arr| < 2 {
      date := Put(Some(dateProp), None);
    } else if Contains(arr[1], " ") {
      date := Put(Some(dateProp), ConvertTextToType(arr[1], LocalDateTimeType));
    } else {
      date := Put(Some(dateProp), ConvertTextToType(arr[1], LocalDateType));
    }
    assert TextWrites(valueProp, dateProp, text) == Ok([value, date]);
    ApplyTwo(s.properties, value, date);
    s.SetProperty(value.key, value.value);
    s.SetProperty(date.key, date.value);
    return None;
  }

  lemma ApplyTwo(m: map<Option<string>, Option<Value>>, a: Put, b: Put)
    ensures Apply(m, [a, b]) == m[a.key := a.value][b.key := b.value]
  {
    var m1 := m[a.key := a.value];
    assert [a, b][1..] == [b];
    assert Apply(m, [a, b]) == Apply(m1, [b]);
    assert [b][1..] == [];
    assert Apply(m1, [b]) == Apply(m1[b.key := b.value], []);
  }

  /** The parts of the entry of a place: two on a price-date row, one
      elsewhere, none with white space at either end. */
  lemma EntryParts(side: string, row: int)
    requires IsPlace(side, row)
    ensures var key := RowKey(side, row);
            && key in ROW_TO_PROP
            && var parts := JavaSplit(ROW_TO_PROP[key], ",");
            && |parts| == (if IsPriceDateReferenceRow(side, row) then 2 else 1)
            && forall i :: 0 <= i < |parts| ==> Bare(parts[i])
  {
    assert IsPriceDateReferenceRow(side, row) == IsPairPlace(side, row);
    EntryProps(side, row);
  }

  /** Before the scraper exists every call throws, and a row outside the
      page has no entry: `NullPointerException`. */
  lemma PriceDateNoEntry(initialised: bool, text: Option<string>, row: int, side: string)
    ensures !initialised ==> PriceDateWrites(initialised, text, row, side) == Err(IllegalState(UNINITIALISED))
    ensures initialised && !IsPlace(side, row) ==> PriceDateWrites(initialised, text, row, side) == Err(NullPointer)
  {
    RowToPropKeys(side, row);
  }

  /** A row of the page with a single property has no second name:
      `ArrayIndexOutOfBoundsException`. */
  lemma PriceDateSingleName(text: Option<string>, row: int, side: string)
    requires IsPlace(side, row) && !IsPriceDateReferenceRow(side, row)
    ensures PriceDateWrites(true, text, row, side) == Err(IndexOutOfBounds)
  {
    EntryParts(side, row);
  }

  /** The names of a price-date row: the two parts of its `rowToProp`
      entry, which `strip` keeps as they are. */
  lemma PairNames(side: string, row: int) returns (valueProp: string, dateProp: string)
    requires IsPriceDateReferenceRow(side, row)
    ensures RowKey(side, row) in ROW_TO_PROP
    ensures JavaSplit(ROW_TO_PROP[RowKey(side, row)], ",") == [valueProp, dateProp]
    ensures Trim(valueProp) == valueProp && Trim(dateProp) == dateProp
  {
    EntryParts(side, row);
    valueProp, dateProp := TwoNames(ROW_TO_PROP[RowKey(side, row)]);
  }

  /** An entry of two bare names. */
  lemma TwoNames(entry: string) returns (a: string, b: string)
    requires |JavaSplit(entry, ",")| == 2
    requires Bare(JavaSplit(entry, ",")[0]) && Bare(JavaSplit(entry, ",")[1])
    ensures JavaSplit(entry, ",") == [a, b] && Trim(a) == a && Trim(b) == b
  {
    var parts := JavaSplit(entry, ",");
    a, b := parts[0], parts[1];
    assert parts == [a, b];
    TrimVisible(a);
    TrimVisible(b);
  }

  /** On a price-date row the names are found and the text decides the rest. */
  lemma PriceDateRow(text: Option<string>, row: int, side: string) returns (valueProp: string, dateProp: string)
    requires IsPriceDateReferenceRow(side, row)
    ensures RowKey(side, row) in ROW_TO_PROP
    ensures JavaSplit(ROW_TO_PROP[RowKey(side, row)], ",") == [valueProp, dateProp]
    ensures RowProps(row, side) == Ok((valueProp, dateProp))
    ensures PriceDateWrites(true, text, row, side) == TextWrites(valueProp, dateProp, text)
  {
    valueProp, dateProp := PairNames(side, row);
  }

  /** The only exception the text can cause is a text that splits into no
      part at all, such as `" - "`. */
  lemma TextFaults(valueProp: string, dateProp: string, text: Option<string>)
    ensures TextWrites(valueProp, dateProp, text).Err?
        <==> text.Some? && text.value != "" && text.value != "-" && JavaSplit(text.value, " - ") == []
    ensures TextWrites(valueProp, dateProp, text).Err? ==> TextWrites(valueProp, dateProp, text).error == IndexOutOfBounds
  {
  }

  /** A missing element, an empty text or `"-"` leaves the share as it was. */
  lemma NoText(valueProp: string, dateProp: string, text: Option<string>)
    requires text.None? || text.value == "" || text.value == "-"
    ensures TextWrites(valueProp, dateProp, text) == Ok([])
  {
  }

  /** A text without `" - "` is all price: it is read as a `Double` and the
      date property is set to `null`. */
  lemma NoDate(valueProp: string, dateProp: string, t: string)
    requires t != "" && t != "-" && !Contains(t, " - ")
    ensures TextWrites(valueProp, dateProp, Some(t))
         == Ok([Put(Some(valueProp), ConvertTextToType(t, DoubleType)), Put(Some(dateProp), None)])
  {
  }

  /** A text `v - w` whose price `v` has no blank and whose second part `w`
      holds no `" - "`: `v` is read as a `Double`, and `w` as a date-time
      when it holds a blank, as a date otherwise. */
  lemma SecondPart(valueProp: string, dateProp: string, v: string, w: string)
    requires forall i :: 0 <= i < |v| ==> v[i] != ' '
    requires w != [] && !Contains(w, " - ")
    ensures var kind := if Contains(w, " ") then LocalDateTimeType else LocalDateType;
            TextWrites(valueProp, dateProp, Some(v + " - " + w))
            == Ok([Put(Some(valueProp), ConvertTextToType(v, DoubleType)), Put(Some(dateProp), ConvertTextToType(w, kind))])
  {
    SplitAtFirstDash(v, w);
    var t := v + " - " + w;
    assert t != "" && t != "-" by { assert |t| >= 3; }
  }

  /** The date-time branch never stores a date-time: the pieces of
      `split(" - ")` hold no `" - "`, and the date-time pattern
      `dd/MM/yy - H.mm.ss` needs one. */
  lemma NeverDateTime(valueProp: string, dateProp: string, text: Option<string>)
    ensures var r := TextWrites(valueProp, dateProp, text);
            r.Ok? ==> forall i :: 0 <= i < |r.value| ==> r.value[i].value.None? || !r.value[i].value.value.DateTimeValue?
  {
    var r := TextWrites(valueProp, dateProp, text);
    if r.Ok? && |r.value| == 2 {
      var arr := JavaSplit(text.value, " - ");
      if |arr| >= 2 && Contains(arr[1], " ") {
        JavaSplitPieces(text.value, " - ");
        DateTimeNeedsDash(arr[1]);
      }
    }
  }

  /** A price with a valid date written `dd/MM/yy` stores both. */
  lemma PriceWithDate(valueProp: string, dateProp: string, v: string, d: Date)
    requires forall i :: 0 <= i < |v| ==> v[i] != ' '
    requires ValidDate(d) && d.yy < 100
    ensures TextWrites(valueProp, dateProp, Some(v + " - " + FormatDate(d)))
         == Ok([Put(Some(valueProp), ConvertTextToType(v, DoubleType)), Put(Some(dateProp), Some(DateValue(d)))])
  {
    FormatDateBlankFree(d);
    SecondPart(valueProp, dateProp, v, FormatDate(d));
    JavaDateConverts(d);
  }

  /** A price followed by a date-time written `dd/MM/yy HH.mm.ss`: the
      second part holds a blank, is read against `dd/MM/yy - H.mm.ss`, and
      the date property is set to `null`. */
  lemma PriceWithSpacedDateTime(valueProp: string, dateProp: string, v: string, dt: DateTime)
    requires forall i :: 0 <= i < |v| ==> v[i] != ' '
    requires dt.date.day < 100 && dt.date.month < 100 && dt.date.yy < 100
    requires dt.time.hour < 100 && dt.time.minute < 100 && dt.time.second < 100
    ensures TextWrites(valueProp, dateProp, Some(v + " - " + FormatDateTime(dt, false)))
         == Ok([Put(Some(valueProp), ConvertTextToType(v, DoubleType)), Put(Some(dateProp), None)])
  {
    var w := FormatDateTime(dt, false);
    SpacedBlank(dt);
    SecondPart(valueProp, dateProp, v, w);
    DateTimeNeedsDash(w);
  }

  /** The official price example: `1234,56 - 04/11/24` at right row 8 gives
      1234.56 and the 4th of November of '24. */
  lemma OfficialPriceExample(text: string, row: int, side: string)
    requires text == "1234,56 - 04/11/24" && row == 8 && side == "right"
    ensures PriceDateWrites(true, Some(text), row, side)
         == Ok([Put(Some("prezzoUfficiale"), Some(DoubleValue(Finite(1234.56)))),
                Put(Some("dataPrezzoUfficiale"), Some(DateValue(Date(4, 11, 24))))])
  {
    var d := Date(4, 11, 24);
    var v := Plain1234();
    OfficialText(d, v, text);
    OfficialNames(row, side);
    PriceWithDate("prezzoUfficiale", "dataPrezzoUfficiale", v, d);
  }

  /** The reference price example: `1234,56 - 04/11/24 17.45.00` at right
      row 7 gives 1234.56 and a `null` date-time. */
  lemma ReferencePriceExample(text: string, row: int, side: string)
    requires text == "1234,56 - 04/11/24 17.45.00" && row == 7 && side == "right"
    ensures PriceDateWrites(true, Some(text), row, side)
         == Ok([Put(Some("prezzoRiferimento"), Some(DoubleValue(Finite(1234.56)))),
                Put(Some("dataOraPrezzoRifermento"), None)])
  {
    var dt := DateTime(Date(4, 11, 24), Time(17, 45, 0));
    var v := Plain1234();
    ReferenceText(dt, v, text);
    ReferenceNames(row, side);
    PriceWithSpacedDateTime("prezzoRiferimento", "dataOraPrezzoRifermento", v, dt);
  }

  /** `" - "` alone splits into nothing, and reading its first part throws. */
  lemma DashOnlyFaults(valueProp: string, dateProp: string)
    ensures TextWrites(valueProp, dateProp, Some(" - ")) == Err(IndexOutOfBounds)
  {
    var t := " - ";
    assert OccursAt(t, " - ", 0);
    assert FindFrom(t, " - ", 0) == Some(0);
    assert t[3..] == [];
    assert SplitAll(t, " - ") == ["", ""];
  }

  /** The names of right row 8. */
  lemma OfficialNames(row: int, side: string)
    requires row == 8 && side == "right"
    ensures RowProps(row, side) == Ok(("prezzoUfficiale", "dataPrezzoUfficiale"))
  {
    var valueProp, dateProp := PriceDateRow(None, row, side);
    var a, b := OfficialEntry(side, row);
    assert [valueProp, dateProp] == [a, b];
  }

  /** The names of right row 7. */
  lemma ReferenceNames(row: int, side: string)
    requires row == 7 && side == "right"
    ensures RowProps(row, side) == Ok(("prezzoRiferimento", "dataOraPrezzoRifermento"))
  {
    var valueProp, dateProp := PriceDateRow(None, row, side);
    var a, b := ReferenceEntry(side, row);
    assert [valueProp, dateProp] == [a, b];
  }

  // Splitting at " - "

  /** `v - w` splits into `v` and `w` when `v` has no blank and `w` no `" - "`. */
  lemma SplitAtFirstDash(v: string, w: string)
    requires forall i :: 0 <= i < |v| ==> v[i] != ' '
    requires w != [] && !Contains(w, " - ")
    ensures JavaSplit(v + " - " + w, " - ") == [v, w]
  {
    var t := v + " - " + w;
    assert OccursAt(t, " - ", |v|) by { assert t[|v|..|v| + 3] == " - "; }
    forall j | 0 <= j < |v| ensures !OccursAt(t, " - ", j) {
      assert t[j] == v[j];
    }
    var f := FindFrom(t, " - ", 0);
    assert f == Some(|v|);
    assert t[..|v|] == v && t[|v| + 3..] == w;
    assert SplitAll(t, " - ") == [v, w];
  }

  /** No piece of `split(sep)` holds `sep`. */
  lemma JavaSplitPieces(s: string, sep: string)
    requires sep != []
    ensures forall i :: 0 <= i < |JavaSplit(s, sep)| ==> !Contains(JavaSplit(s, sep)[i], sep)
  {
    SplitAllPieces(s, sep);
  }

  lemma {:induction false} SplitAllPieces(s: string, sep: string)
    requires sep != []
    ensures forall i :: 0 <= i < |SplitAll(s, sep)| ==> !Contains(SplitAll(s, sep)[i], sep)
    decreases |s|
  {
    match FindFrom(s, sep, 0)
    case None =>
    case Some(k) =>
      SplitAllPieces(s[k + |sep|..], sep);
      PrefixFree(s, sep, k);
  }

  /** A prefix that ends before the first occurrence holds none. */
  lemma PrefixFree(s: string, sep: string, k: nat)
    requires sep != [] && k <= |s|
    requires forall j :: 0 <= j < k ==> !OccursAt(s, sep, j)
    ensures !Contains(s[..k], sep)
  {
    var p := s[..k];
    var f := FindFrom(p, sep, 0);
    if f.Some? {
      var j := f.value;
      assert p[j..j + |sep|] == s[j..j + |sep|];
      assert OccursAt(s, sep, j);
      assert false;
    }
  }

  // Performance

  /** The text `insertPerformanceInfo` reads: dots removed, commas made
      points, percent signs removed. */
  function PerformanceText(t: string): (r: string)
    ensures forall i :: 0 <= i < |r| ==> r[i] != ',' && r[i] != '%'
  {
    var u := ReplaceChar(RemoveChar(t, '.'), ',', '.');
    assert ',' !in multiset(u) by { assert forall i :: 0 <= i < |u| ==> u[i] != ','; }
    RemoveCharCounts(u, '%');
    var r := RemoveChar(u, '%');
    assert forall i :: 0 <= i < |r| ==> r[i] != ',' by {
      forall i | 0 <= i < |r| ensures r[i] != ',' {
        assert r[i] in multiset(r);
      }
    }
    r
  }

  /** The name `insertPerformanceInfo` writes under: the entry of
      `right_<row>`, `null` when there is none. */
  function PerformanceProp(row: int): Option<string> {
    var key := RowKey(PERFORMANCE_INFO_SIDE, row);
    if key in ROW_TO_PROP then Some(ROW_TO_PROP[key]) else None
  }

  /** What `insertPerformanceInfo` does with the element's text: nothing
      without text, otherwise one put of the rewritten text read as a
      `Double`. */
  function PerformanceWrites(initialised: bool, text: Option<string>, row: int): Result<seq<Put>, Fault> {
    if !initialised then Err(IllegalState(UNINITIALISED))
    else if text.None? || text.value == "" then Ok([])
    else Ok([Put(PerformanceProp(row), ConvertTextToType(PerformanceText(text.value), DoubleType))])
  }

  /** `insertPerformanceInfo(s, el, row)`. */
  method InsertPerformanceInfo(holder: ScraperHolder, s: Share, el: Option<string>, row: int)
    returns (fault: Option<Fault>)
    modifies s
    ensures var w := PerformanceWrites(holder.instance.Some?, el, row);
            && (w.Err? ==> fault == Some(w.error) && s.properties == old(s.properties))
            && (w.Ok? ==> fault.None? && s.properties == Apply(old(s.properties), w.value))
  {
    var scraper := holder.CurrentInstance();
    if scraper.Err? {
      return Some(IllegalState(scraper.error));
    }
    var text := StringContent(el);
    var key := RowKey(PERFORMANCE_INFO_SIDE, row);
    var propName := if key in ROW_TO_PROP then Some(ROW_TO_PROP[key]) else None;
    if text.None? || text.value == "" {
      return None;
    }
    var formatted := PerformanceText(text.value);
    s.SetProperty(propName, ConvertTextToType(formatted, DoubleType));
    return None;
  }

  /** A row outside the page writes under the `null` key. */
  lemma PerformanceNullKey(row: int)
    requires !IsPlace("right", row)
    ensures PerformanceProp(row).None?
  {
    RowToPropKeys("right", row);
  }

  /** A non-empty text writes exactly one value, a `Double` or `null`; an
      empty or missing one writes nothing. */
  lemma PerformancePut(text: Option<string>, row: int)
    ensures var r := PerformanceWrites(true, text, row);
            && r.Ok?
            && (text.None? || text.value == "" <==> r.value == [])
            && (r.value != [] ==> |r.value| == 1 && r.value[0].key == PerformanceProp(row))
            && (r.value != [] && r.value[0].value.Some? ==> r.value[0].value.value.DoubleValue?)
  {
  }

  /** The names of the performance rows. */
  lemma PerformanceNames(row: int)
    requires IsPerformanceRow("right", row)
    ensures PerformanceProp(row) == Some(if row == 10 then "performance1Mese" else if row == 11 then "performance6Mesi" else "performance1Anno")
  {
    RowToPropValue("right", row);
  }

  /** An Italian percentage `x,f%` is rewritten to `x.f`. */
  lemma PerformanceTextItalian(x: string, f: string)
    requires AllDigits(x) && AllDigits(f)
    ensures PerformanceText(x + "," + f + "%") == x + "." + f
  {
    DigitsUnmarked(x);
    DigitsUnmarked(f);
    var t := x + "," + f + "%";
    var p := x + "." + f;
    assert RemoveChar(t, '.') == t by {
      forall i | 0 <= i < |t| ensures t[i] != '.' {
        if i < |x| { assert t[i] == x[i]; } else if |x| < i < |x| + 1 + |f| { assert t[i] == f[i - |x| - 1]; }
      }
      RemoveCharAbsent(t, '.');
    }
    assert ReplaceChar(t, ',', '.') == p + "%" by {
      var r := ReplaceChar(t, ',', '.');
      forall i | 0 <= i < |t| ensures r[i] == (p + "%")[i] {
        if i < |x| { assert t[i] == x[i]; } else if |x| < i < |x| + 1 + |f| { assert t[i] == f[i - |x| - 1]; }
      }
    }
    assert RemoveChar(p + "%", '%') == p by {
      forall i | 0 <= i < |p| ensures p[i] != '%' {
        if i < |x| { assert p[i] == x[i]; } else if i > |x| { assert p[i] == f[i - |x| - 1]; }
      }
      RemoveCharLast(p, '%');
    }
  }

  /** `x.y%` loses its dot and its percent sign: `xy`. */
  lemma PerformanceTextDot(x: string, y: string)
    requires AllDigits(x) && AllDigits(y)
    ensures PerformanceText(x + "." + y + "%") == x + y
  {
    DigitsUnmarked(x);
    DigitsUnmarked(y);
    var t := x + "." + y + "%";
    var z := y + "%";
    var w := x + y;
    assert forall i :: 0 <= i < |w| ==> w[i] != ',' && w[i] != '%' by {
      forall i | 0 <= i < |w| ensures w[i] != ',' && w[i] != '%' {
        if i < |x| { assert w[i] == x[i]; } else { assert w[i] == y[i - |x|]; }
      }
    }
    assert RemoveChar(t, '.') == w + "%" by {
      forall i | 0 <= i < |z| ensures z[i] != '.' {
        if i < |y| { assert z[i] == y[i]; }
      }
      RemoveCharAround(x, '.', z);
      assert t == x + ['.'] + z && x + z == w + "%";
    }
    assert ReplaceChar(w + "%", ',', '.') == w + "%" by {
      var u := w + "%";
      forall i | 0 <= i < |u| ensures u[i] != ',' {
        if i < |w| { assert u[i] == w[i]; }
      }
      ReplaceCharAbsent(u, ',', '.');
    }
    assert RemoveChar(w + "%", '%') == w by { RemoveCharLast(w, '%'); }
  }

  /** An Italian percentage with one or two decimals, `x,f%`, is read as `x.f`. */
  lemma PerformanceItalian(x: string, f: string, row: int)
    requires x != [] && AllDigits(x) && AllDigits(f) && 1 <= |f| <= 2
    ensures PerformanceWrites(true, Some(x + "," + f + "%"), row)
         == Ok([Put(PerformanceProp(row), Some(DoubleValue(Finite(DecimalValue(x, f)))))])
  {
    PerformanceTextItalian(x, f);
    ShortFraction(x, f);
  }

  /** `10,5%` at right row 10 is read as 10.5. */
  lemma PerformanceItalianExample(t: string, row: int)
    requires t == "10,5%" && row == 10
    ensures PerformanceWrites(true, Some(t), row)
         == Ok([Put(Some("performance1Mese"), Some(DoubleValue(Finite(10.5))))])
  {
    var x, f := TenFive(t);
    PerformanceItalian(x, f, row);
    PerformanceNames(row);
  }

  /** Dots are dropped before the comma becomes a point: `x.y%` is read as
      the integer `xy`. */
  lemma PerformanceDot(x: string, y: string, row: int)
    requires x != [] && AllDigits(x) && AllDigits(y)
    ensures PerformanceWrites(true, Some(x + "." + y + "%"), row)
         == Ok([Put(PerformanceProp(row), Some(DoubleValue(Finite(DigitsValue(x + y) as real))))])
  {
    PerformanceTextDot(x, y);
    var w := x + y;
    assert w != [] && AllDigits(w) by {
      forall i | 0 <= i < |w| ensures IsDigit(w[i]) {
        if i < |x| { assert w[i] == x[i]; } else { assert w[i] == y[i - |x|]; }
      }
    }
    DigitsWhole(w);
  }

  /** `10.5%` at right row 10 loses its dot and is read as 105. */
  lemma PerformanceDotExample(t: string, row: int)
    requires t == "10.5%" && row == 10
    ensures PerformanceWrites(true, Some(t), row)
         == Ok([Put(Some("performance1Mese"), Some(DoubleValue(Finite(105.0))))])
  {
    var x, y := TenDotFive(t);
    PerformanceDot(x, y, row);
    PerformanceNames(row);
  }

  /** `1,234%`, a percentage with three decimals, becomes `1.234`, which the
      `Double` conversion takes for a thousands separator: 1234. */
  lemma PerformanceThreeDecimalsExample(t: string, row: int)
    requires t == "1,234%" && row == 10
    ensures PerformanceWrites(true, Some(t), row)
         == Ok([Put(Some("performance1Mese"), Some(DoubleValue(Finite(1234.0))))])
  {
    var x, f := OneComma234(t);
    PerformanceTextItalian(x, f);
    PerformanceNames(row);
    Thousand234(x + "." + f);
  }

  lemma TenFive(t: string) returns (x: string, f: string)
    requires t == "10,5%"
    ensures t == x + "," + f + "%" && x != [] && AllDigits(x) && AllDigits(f) && |f| == 1
    ensures DecimalValue(x, f) == 10.5
  {
    x, f := "10", "5";
    assert x[..1] == "1" && "1"[..0] == [] && f[..0] == [];
  }

  lemma TenDotFive(t: string) returns (x: string, y: string)
    requires t == "10.5%"
    ensures t == x + "." + y + "%" && x != [] && AllDigits(x) && AllDigits(y)
    ensures DigitsValue(x + y) == 105
  {
    x, y := "10", "5";
    assert x + y == "105";
    assert "105"[..2] == "10" && "10"[..1] == "1" && "1"[..0] == [];
  }

  lemma OneComma234(t: string) returns (x: string, f: string)
    requires t == "1,234%"
    ensures t == x + "," + f + "%" && AllDigits(x) && AllDigits(f) && x + "." + f == "1.234"
  {
    x, f := "1", "234";
  }

}
