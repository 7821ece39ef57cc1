/** The constant lookup tables of the Java scraper: `rowToProp` names the
    property (or the comma-separated pair of properties) shown in each
    `side_row` place of the page, and `propToType` the Java type each
    property is converted to. Both are `HashMap`s filled by a run of `put`
    calls; the model keeps those calls in order and builds the map from them. */
module ShareProps {
  import opened Common
  import opened Numbers
  import opened JavaScraper

  /** The `put` calls that fill `rowToProp`, in order (written in groups of
      four, which keeps indexing into the table cheap for the verifier); the
      entry of a pair place is written as its two names joined by a comma. */
  const ROW_PUTS: seq<(string, string)> :=
    [
      ("left_1", "codiceIsin"),
      ("left_2", "idStrumento"),
      ("left_3", "codiceAlfanumerico"),
      ("left_4", "superSector")
    ]
    + [
      ("left_5", "mercatoSegmento"),
      ("left_6", "capitalizzazioneDiMercato"),
      ("left_7", "lottoMinimo"),
      ("left_8", "faseDiMercato")
    ]
    + [
      ("left_9", "prezzoUltimoContratto"),
      ("left_10", "varPercentuale"),
      ("left_11", "varAssoluta"),
      ("left_12", "prMedioProgr")
    ]
    + [
      ("left_13", "dataOraUltimoContratto"),
      ("left_14", "quantitaUltimo"),
      ("left_15", "quantitaTotale"),
      ("left_16", "numeroContratti")
    ]
    + [
      ("right_1", "controvalore"),
      ("right_2", "maxOggi"),
      ("right_3", "maxAnno" + "," + "maxAnnoDate"),
      ("right_4", "minOggi")
    ]
    + [
      ("right_5", "minAnno" + "," + "minAnnoDate"),
      ("right_6", "chiusuraPrecedente"),
      ("right_7", "prezzoRiferimento" + "," + "dataOraPrezzoRifermento"),
      ("right_8", "prezzoUfficiale" + "," + "dataPrezzoUfficiale")
    ]
    + [
      ("right_9", "aperturaOdierna"),
      ("right_10", "performance1Mese"),
      ("right_11", "performance6Mesi"),
      ("right_12", "performance1Anno")
    ]

  /** The `put` calls that fill `propToType`, in order. */
  const TYPE_PUTS: seq<(string, JavaType)> :=
    [
      ("codiceIsin", StringType),
      ("idStrumento", DoubleType),
      ("codiceAlfanumerico", StringType),
      ("superSector", StringType)
    ]
    + [
      ("mercatoSegmento", StringType),
      ("capitalizzazioneDiMercato", DoubleType),
      ("lottoMinimo", DoubleType),
      ("faseDiMercato", StringType)
    ]
    + [
      ("prezzoUltimoContratto", DoubleType),
      ("varPercentuale", DoubleType),
      ("varAssoluta", DoubleType),
      ("prMedioProgr", DoubleType)
    ]
    + [
      ("dataOraUltimoContratto", LocalDateTimeType),
      ("quantitaUltimo", DoubleType),
      ("quantitaTotale", DoubleType),
      ("numeroContratti", IntegerType)
    ]
    + [
      ("controvalore", DoubleType),
      ("maxOggi", DoubleType),
      ("maxAnno", DoubleType),
      ("maxAnnoDate", LocalDateType)
    ]
    + [
      ("minOggi", DoubleType),
      ("minAnno", DoubleType),
      ("minAnnoDate", LocalDateType),
      ("chiusuraPrecedente", DoubleType)
    ]
    + [
      ("prezzoRiferimento", DoubleType),
      ("dataOraPrezzoRifermento", LocalDateTimeType),
      ("prezzoUfficiale", DoubleType),
      ("dataPrezzoUfficiale", LocalDateType)
    ]
    + [
      ("aperturaOdierna", DoubleType),
      ("performance1Mese", DoubleType),
      ("performance6Mesi", DoubleType),
      ("performance1Anno", DoubleType)
    ]

  /** The map a run of `put` calls builds; a later `put` of a key replaces
      an earlier one. */
  function Puts<V>(puts: seq<(string, V)>): (m: map<string, V>)
    ensures forall k :: k in m <==> exists i :: 0 <= i < |puts| && puts[i].0 == k
  {
    if puts == [] then map[]
    else
      var prefix := puts[..|puts| - 1];
      assert forall i :: 0 <= i < |prefix| ==> prefix[i] == puts[i];
      Puts(prefix)[puts[|puts| - 1].0 := puts[|puts| - 1].1]
  }

  /** A key maps to the value of its last `put`. */
  lemma {:induction false} PutsLookup<V>(puts: seq<(string, V)>, i: nat)
    requires i < |puts|
    requires forall j :: i < j < |puts| ==> puts[j].0 != puts[i].0
    ensures puts[i].0 in Puts(puts) && Puts(puts)[puts[i].0] == puts[i].1
  {
    if i < |puts| - 1 {
      var prefix := puts[..|puts| - 1];
      assert prefix[i] == puts[i];
      PutsLookup(prefix, i);
    }
  }

  /** `rowToProp`. */
  const ROW_TO_PROP: map<string, string> := Puts(ROW_PUTS)

  /** `propToType`. */
  const PROP_TO_TYPE: map<string, JavaType> := Puts(TYPE_PUTS)

  const LEFT_ROWS: nat := 16
  const RIGHT_ROWS: nat := 12

  /** Java's decimal rendering of an `int`. */
  function IntString(n: int): string {
    if n < 0 then "-" + DecimalString(-n) else DecimalString(n)
  }

  /** The lookup key `side + "_" + row`. */
  function RowKey(side: string, row: int): string {
    side + "_" + IntString(row)
  }

  /** A place that exists on the page: one of the sixteen left rows or the
      twelve right rows, counted from 1. */
  predicate IsPlace(side: string, row: int) {
    (side == "left" && 1 <= row <= LEFT_ROWS) || (side == "right" && 1 <= row <= RIGHT_ROWS)
  }

  /** The places in the order of the `put` calls: the left rows, then the right rows. */
  function PlaceSide(i: nat): string {
    if i < LEFT_ROWS then "left" else "right"
  }

  function PlaceRow(i: nat): nat {
    if i < LEFT_ROWS then i + 1 else i - LEFT_ROWS + 1
  }

  function PlaceIndex(side: string, row: int): (i: nat)
    requires IsPlace(side, row)
    ensures i < LEFT_ROWS + RIGHT_ROWS && PlaceSide(i) == side && PlaceRow(i) == row
  {
    if side == "left" then row - 1 else LEFT_ROWS + row - 1
  }

  /** The `put` calls of `rowToProp` are those of the places, in order. */
  lemma KeyTable()
    ensures |ROW_PUTS| == LEFT_ROWS + RIGHT_ROWS
    ensures forall i :: 0 <= i < |ROW_PUTS| ==> ROW_PUTS[i].0 == RowKey(PlaceSide(i), PlaceRow(i))
  {
    forall i | 0 <= i < |ROW_PUTS| ensures ROW_PUTS[i].0 == RowKey(PlaceSide(i), PlaceRow(i)) {
      if i < 7 {
        KeysFrom0(i);
      } else if i < 14 {
        KeysFrom7(i);
      } else if i < 21 {
        KeysFrom14(i);
      } else {
        KeysFrom21(i);
      }
    }
  }

  lemma KeysFrom0(i: nat)
    requires 0 <= i < 7
    ensures ROW_PUTS[i].0 == RowKey(PlaceSide(i), PlaceRow(i))
  {
    var k := ROW_PUTS[i].0;
    if i == 0 {
      assert k == "left_1";
      assert RowKey("left", 1) == "left_1" by { assert IntString(1) == "1"; }
    } else if i == 1 {
      assert k == "left_2";
      assert RowKey("left", 2) == "left_2" by { assert IntString(2) == "2"; }
    } else if i == 2 {
      assert k == "left_3";
      assert RowKey("left", 3) == "left_3" by { assert IntString(3) == "3"; }
    } else if i == 3 {
      assert k == "left_4";
      assert RowKey("left", 4) == "left_4" by { assert IntString(4) == "4"; }
    } else if i == 4 {
      assert k == "left_5";
      assert RowKey("left", 5) == "left_5" by { assert IntString(5) == "5"; }
    } else if i == 5 {
      assert k == "left_6";
      assert RowKey("left", 6) == "left_6" by { assert IntString(6) == "6"; }
    } else if i == 6 {
      assert k == "left_7";
      assert RowKey("left", 7) == "left_7" by { assert IntString(7) == "7"; }
    }
  }

  lemma KeysFrom7(i: nat)
    requires 7 <= i < 14
    ensures ROW_PUTS[i].0 == RowKey(PlaceSide(i), PlaceRow(i))
  {
    var k := ROW_PUTS[i].0;
    if i == 7 {
      assert k == "left_8";
      assert RowKey("left", 8) == "left_8" by { assert IntString(8) == "8"; }
    } else if i == 8 {
      assert k == "left_9";
      assert RowKey("left", 9) == "left_9" by { assert IntString(9) == "9"; }
    } else if i == 9 {
      assert k == "left_10";
      assert RowKey("left", 10) == "left_10" by { assert IntString(10) == "10"; }
    } else if i == 10 {
      assert k == "left_11";
      assert RowKey("left", 11) == "left_11" by { assert IntString(11) == "11"; }
    } else if i == 11 {
      assert k == "left_12";
      assert RowKey("left", 12) == "left_12" by { assert IntString(12) == "12"; }
    } else if i == 12 {
      assert k == "left_13";
      assert RowKey("left", 13) == "left_13" by { assert IntString(13) == "13"; }
    } else if i == 13 {
      assert k == "left_14";
      assert RowKey("left", 14) == "left_14" by { assert IntString(14) == "14"; }
    }
  }

  lemma KeysFrom14(i: nat)
    requires 14 <= i < 21
    ensures ROW_PUTS[i].0 == RowKey(PlaceSide(i), PlaceRow(i))
  {
    var k := ROW_PUTS[i].0;
    if i == 14 {
      assert k == "left_15";
      assert RowKey("left", 15) == "left_15" by { assert IntString(15) == "15"; }
    } else if i == 15 {
      assert k == "left_16";
      assert RowKey("left", 16) == "left_16" by { assert IntString(16) == "16"; }
    } else if i == 16 {
      assert k == "right_1";
      assert RowKey("right", 1) == "right_1" by { assert IntString(1) == "1"; }
    } else if i == 17 {
      assert k == "right_2";
      assert RowKey("right", 2) == "right_2" by { assert IntString(2) == "2"; }
    } else if i == 18 {
      assert k == "right_3";
      assert RowKey("right", 3) == "right_3" by { assert IntString(3) == "3"; }
    } else if i == 19 {
      assert k == "right_4";
      assert RowKey("right", 4) == "right_4" by { assert IntString(4) == "4"; }
    } else if i == 20 {
      assert k == "right_5";
      assert RowKey("right", 5) == "right_5" by { assert IntString(5) == "5"; }
    }
  }

  lemma KeysFrom21(i: nat)
    requires 21 <= i < 28
    ensures ROW_PUTS[i].0 == RowKey(PlaceSide(i), PlaceRow(i))
  {
    var k := ROW_PUTS[i].0;
    if i == 21 {
      assert k == "right_6";
      assert RowKey("right", 6) == "right_6" by { assert IntString(6) == "6"; }
    } else if i == 22 {
      assert k == "right_7";
      assert RowKey("right", 7) == "right_7" by { assert IntString(7) == "7"; }
    } else if i == 23 {
      assert k == "right_8";
      assert RowKey("right", 8) == "right_8" by { assert IntString(8) == "8"; }
    } else if i == 24 {
      assert k == "right_9";
      assert RowKey("right", 9) == "right_9" by { assert IntString(9) == "9"; }
    } else if i == 25 {
      assert k == "right_10";
      assert RowKey("right", 10) == "right_10" by { assert IntString(10) == "10"; }
    } else if i == 26 {
      assert k == "right_11";
      assert RowKey("right", 11) == "right_11" by { assert IntString(11) == "11"; }
    } else if i == 27 {
      assert k == "right_12";
      assert RowKey("right", 12) == "right_12" by { assert IntString(12) == "12"; }
    }
  }

  /** `rowToProp` has an entry for exactly the places of the page. */
  lemma RowToPropKeys(side: string, row: int)
    ensures RowKey(side, row) in ROW_TO_PROP <==> IsPlace(side, row)
  {
    if IsPlace(side, row) {
      PlaceHasKey(side, row);
    }
    if RowKey(side, row) in ROW_TO_PROP {
      KeyHasPlace(side, row);
    }
  }

  lemma PlaceHasKey(side: string, row: int)
    requires IsPlace(side, row)
    ensures RowKey(side, row) in ROW_TO_PROP
  {
    KeyTable();
    var i := PlaceIndex(side, row);
    assert ROW_PUTS[i].0 == RowKey(side, row);
  }

  lemma KeyHasPlace(side: string, row: int)
    requires RowKey(side, row) in ROW_TO_PROP
    ensures IsPlace(side, row)
  {
    KeyTable();
    var i :| 0 <= i < |ROW_PUTS| && ROW_PUTS[i].0 == RowKey(side, row);
    KeyParts(side, row, PlaceSide(i), PlaceRow(i));
  }

  /** Every key of `rowToProp` is the key of a place. */
  lemma RowToPropOnlyPlaces(k: string)
    requires k in ROW_TO_PROP
    ensures exists side, row :: IsPlace(side, row) && k == RowKey(side, row)
  {
    KeyTable();
    var i :| 0 <= i < |ROW_PUTS| && ROW_PUTS[i].0 == k;
    assert IsPlace(PlaceSide(i), PlaceRow(i));
  }

  /** No two `put` calls of `rowToProp` share a key. */
  lemma RowKeysDistinct(i: nat, j: nat)
    requires i < j < |ROW_PUTS|
    ensures ROW_PUTS[i].0 != ROW_PUTS[j].0
  {
    KeyTable();
    if ROW_PUTS[i].0 == ROW_PUTS[j].0 {
      KeyParts(PlaceSide(i), PlaceRow(i), PlaceSide(j), PlaceRow(j));
    }
  }

  /** The entry of a place is the text of its `put` call. */
  lemma RowToPropValue(side: string, row: int)
    requires IsPlace(side, row)
    ensures RowKey(side, row) in ROW_TO_PROP
    ensures ROW_TO_PROP[RowKey(side, row)] == ROW_PUTS[PlaceIndex(side, row)].1
  {
    KeyTable();
    var i := PlaceIndex(side, row);
    forall j | i < j < |ROW_PUTS| ensures ROW_PUTS[j].0 != ROW_PUTS[i].0 {
      RowKeysDistinct(i, j);
    }
    PutsLookup(ROW_PUTS, i);
  }

  /** A key splits back into its side and its row when the side holds no `_`. */
  lemma KeyParts(side: string, row: int, s0: string, n: nat)
    requires s0 == "left" || s0 == "right"
    requires RowKey(side, row) == RowKey(s0, n)
    ensures side == s0 && row == n
  {
    SplitAtMark(side, IntString(row), s0, DecimalString(n));
    IntStringDecimal(row, n);
  }

  /** The rendering of an `int` is the rendering of `n` only for `n` itself. */
  lemma IntStringDecimal(row: int, n: nat)
    requires IntString(row) == DecimalString(n)
    ensures row == n
  {
    var t := IntString(row);
    assert row >= 0;
    assert DigitsValue(t) == row;
  }

  /** Text ending in `_` and a part without `_` splits only one way. */
  lemma SplitAtMark(a: string, b: string, c: string, d: string)
    requires forall i :: 0 <= i < |b| ==> b[i] != '_'
    requires forall i :: 0 <= i < |d| ==> d[i] != '_'
    requires a + "_" + b == c + "_" + d
    ensures a == c && b == d
  {
    var k := a + "_" + b;
    LastMark(a, b);
    LastMark(c, d);
    assert a == k[..|a|] == c;
    assert b == k[|a| + 1..] == d;
  }

  /** In `x + "_" + y` with no `_` in `y`, the last `_` is the one after `x`. */
  lemma LastMark(x: string, y: string)
    requires forall i :: 0 <= i < |y| ==> y[i] != '_'
    ensures LastIndexOf(x + "_" + y, '_') == Some(|x|)
  {
    var s := x + "_" + y;
    assert s[|x|] == '_';
    var r := LastIndexOf(s, '_');
    assert r.Some?;
    var p := r.value;
    assert p >= |x|;
    assert s[|x| + 1..] == y;
    assert p <= |x|;
  }

  // The entries

  /** The places of the year range, the reference price and the official
      price: right rows 3, 5, 7 and 8. */
  predicate IsPairPlace(side: string, row: int) {
    side == "right" && (row == 3 || row == 5 || row == 7 || row == 8)
  }

  /** An entry that `split(",")` cuts into one name, or two when `pair`
      holds; every name is non-empty, has no white space at either end, and
      has a type in `propToType`. */
  predicate EntryShape(entry: string, pair: bool) {
    var names := JavaSplit(entry, ",");
    && |names| == (if pair then 2 else 1)
    && forall i :: 0 <= i < |names| ==> Bare(names[i]) && names[i] in PROP_TO_TYPE
  }

  /** A non-empty name with no white space at either end, which `strip` keeps as it is. */
  predicate Bare(p: string) {
    p != [] && !IsWhitespace(p[0]) && !IsWhitespace(p[|p| - 1])
  }

  /** Every `put` of `rowToProp` names one typed property, except those of
      the four pair places, which name two. */
  lemma Entries()
    ensures forall i :: 0 <= i < |ROW_PUTS| ==> EntryShape(ROW_PUTS[i].1, IsPairPlace(PlaceSide(i), PlaceRow(i)))
  {
    forall i | 0 <= i < |ROW_PUTS| ensures EntryShape(ROW_PUTS[i].1, IsPairPlace(PlaceSide(i), PlaceRow(i))) {
      if i < 2 {
        EntriesFrom0(i);
      } else if i < 4 {
        EntriesFrom2(i);
      } else if i < 6 {
        EntriesFrom4(i);
      } else if i < 8 {
        EntriesFrom6(i);
      } else if i < 10 {
        EntriesFrom8(i);
      } else if i < 12 {
        EntriesFrom10(i);
      } else if i < 14 {
        EntriesFrom12(i);
      } else if i < 16 {
        EntriesFrom14(i);
      } else if i < 17 {
        EntriesFrom16(i);
      } else if i < 18 {
        EntriesFrom17(i);
      } else if i < 19 {
        EntriesFrom18(i);
      } else if i < 20 {
        EntriesFrom19(i);
      } else if i < 21 {
        EntriesFrom20(i);
      } else if i < 22 {
        EntriesFrom21(i);
      } else if i < 23 {
        EntriesFrom22(i);
      } else if i < 24 {
        EntriesFrom23(i);
      } else if i < 26 {
        EntriesFrom24(i);
      } else {
        EntriesFrom26(i);
      }
    }
  }

  lemma EntriesFrom0(i: nat)
    requires 0 <= i < 2
    ensures EntryShape(ROW_PUTS[i].1, IsPairPlace(PlaceSide(i), PlaceRow(i)))
  {
    var e := ROW_PUTS[i].1;
    if i == 0 {
      assert e == "codiceIsin";
      SingleEntry(e, 0);
    } else if i == 1 {
      assert e == "idStrumento";
      SingleEntry(e, 1);
    }
  }

  lemma EntriesFrom2(i: nat)
    requires 2 <= i < 4
    ensures EntryShape(ROW_PUTS[i].1, IsPairPlace(PlaceSide(i), PlaceRow(i)))
  {
    var e := ROW_PUTS[i].1;
    if i == 2 {
      assert e == "codiceAlfanumerico";
      SingleEntry(e, 2);
    } else if i == 3 {
      assert e == "superSector";
      SingleEntry(e, 3);
    }
  }

  lemma EntriesFrom4(i: nat)
    requires 4 <= i < 6
    ensures EntryShape(ROW_PUTS[i].1, IsPairPlace(PlaceSide(i), PlaceRow(i)))
  {
    var e := ROW_PUTS[i].1;
    if i == 4 {
      assert e == "mercatoSegmento";
      SingleEntry(e, 4);
    } else if i == 5 {
      assert e == "capitalizzazioneDiMercato";
      SingleEntry(e, 5);
    }
  }

  lemma EntriesFrom6(i: nat)
    requires 6 <= i < 8
    ensures EntryShape(ROW_PUTS[i].1, IsPairPlace(PlaceSide(i), PlaceRow(i)))
  {
    var e := ROW_PUTS[i].1;
    if i == 6 {
      assert e == "lottoMinimo";
      SingleEntry(e, 6);
    } else if i == 7 {
      assert e == "faseDiMercato";
      SingleEntry(e, 7);
    }
  }

  lemma EntriesFrom8(i: nat)
    requires 8 <= i < 10
    ensures EntryShape(ROW_PUTS[i].1, IsPairPlace(PlaceSide(i), PlaceRow(i)))
  {
    var e := ROW_PUTS[i].1;
    if i == 8 {
      assert e == "prezzoUltimoContratto";
      SingleEntry(e, 8);
    } else if i == 9 {
      assert e == "varPercentuale";
      SingleEntry(e, 9);
    }
  }

  lemma EntriesFrom10(i: nat)
    requires 10 <= i < 12
    ensures EntryShape(ROW_PUTS[i].1, IsPairPlace(PlaceSide(i), PlaceRow(i)))
  {
    var e := ROW_PUTS[i].1;
    if i == 10 {
      assert e == "varAssoluta";
      SingleEntry(e, 10);
    } else if i == 11 {
      assert e == "prMedioProgr";
      SingleEntry(e, 11);
    }
  }

  lemma EntriesFrom12(i: nat)
    requires 12 <= i < 14
    ensures EntryShape(ROW_PUTS[i].1, IsPairPlace(PlaceSide(i), PlaceRow(i)))
  {
    var e := ROW_PUTS[i].1;
    if i == 12 {
      assert e == "dataOraUltimoContratto";
      SingleEntry(e, 12);
    } else if i == 13 {
      assert e == "quantitaUltimo";
      SingleEntry(e, 13);
    }
  }

  lemma EntriesFrom14(i: nat)
    requires 14 <= i < 16
    ensures EntryShape(ROW_PUTS[i].1, IsPairPlace(PlaceSide(i), PlaceRow(i)))
  {
    var e := ROW_PUTS[i].1;
    if i == 14 {
      assert e == "quantitaTotale";
      SingleEntry(e, 14);
    } else if i == 15 {
      assert e == "numeroContratti";
      SingleEntry(e, 15);
    }
  }

  lemma EntriesFrom16(i: nat)
    requires i == 16
    ensures EntryShape(ROW_PUTS[i].1, IsPairPlace(PlaceSide(i), PlaceRow(i)))
  {
    var e := ROW_PUTS[i].1;
    assert e == "controvalore";
    SingleEntry(e, 16);
  }

  lemma EntriesFrom17(i: nat)
    requires i == 17
    ensures EntryShape(ROW_PUTS[i].1, IsPairPlace(PlaceSide(i), PlaceRow(i)))
  {
    var e := ROW_PUTS[i].1;
    assert e == "maxOggi";
    SingleEntry(e, 17);
  }

  lemma EntriesFrom18(i: nat)
    requires i == 18
    ensures EntryShape(ROW_PUTS[i].1, IsPairPlace(PlaceSide(i), PlaceRow(i)))
  {
    var e := ROW_PUTS[i].1;
    PairText18();
    PairEntry(e, "maxAnno", 18, "maxAnnoDate", 19);
  }

  lemma EntriesFrom19(i: nat)
    requires i == 19
    ensures EntryShape(ROW_PUTS[i].1, IsPairPlace(PlaceSide(i), PlaceRow(i)))
  {
    var e := ROW_PUTS[i].1;
    assert e == "minOggi";
    SingleEntry(e, 20);
  }

  lemma EntriesFrom20(i: nat)
    requires i == 20
    ensures EntryShape(ROW_PUTS[i].1, IsPairPlace(PlaceSide(i), PlaceRow(i)))
  {
    var e := ROW_PUTS[i].1;
    PairText20();
    PairEntry(e, "minAnno", 21, "minAnnoDate", 22);
  }

  lemma EntriesFrom21(i: nat)
    requires i == 21
    ensures EntryShape(ROW_PUTS[i].1, IsPairPlace(PlaceSide(i), PlaceRow(i)))
  {
    var e := ROW_PUTS[i].1;
    assert e == "chiusuraPrecedente";
    SingleEntry(e, 23);
  }

  lemma EntriesFrom22(i: nat)
    requires i == 22
    ensures EntryShape(ROW_PUTS[i].1, IsPairPlace(PlaceSide(i), PlaceRow(i)))
  {
    var e := ROW_PUTS[i].1;
    PairText22();
    PairEntry(e, "prezzoRiferimento", 24, "dataOraPrezzoRifermento", 25);
  }

  lemma EntriesFrom23(i: nat)
    requires i == 23
    ensures EntryShape(ROW_PUTS[i].1, IsPairPlace(PlaceSide(i), PlaceRow(i)))
  {
    var e := ROW_PUTS[i].1;
    PairText23();
    PairEntry(e, "prezzoUfficiale", 26, "dataPrezzoUfficiale", 27);
  }

  lemma EntriesFrom24(i: nat)
    requires 24 <= i < 26
    ensures EntryShape(ROW_PUTS[i].1, IsPairPlace(PlaceSide(i), PlaceRow(i)))
  {
    var e := ROW_PUTS[i].1;
    if i == 24 {
      assert e == "aperturaOdierna";
      SingleEntry(e, 28);
    } else if i == 25 {
      assert e == "performance1Mese";
      SingleEntry(e, 29);
    }
  }

  lemma EntriesFrom26(i: nat)
    requires 26 <= i < 28
    ensures EntryShape(ROW_PUTS[i].1, IsPairPlace(PlaceSide(i), PlaceRow(i)))
  {
    var e := ROW_PUTS[i].1;
    if i == 26 {
      assert e == "performance6Mesi";
      SingleEntry(e, 30);
    } else if i == 27 {
      assert e == "performance1Anno";
      SingleEntry(e, 31);
    }
  }

  lemma PairText18()
    ensures ROW_PUTS[18].1 == "maxAnno" + "," + "maxAnnoDate"
  {
  }

  lemma PairText20()
    ensures ROW_PUTS[20].1 == "minAnno" + "," + "minAnnoDate"
  {
  }

  lemma PairText22()
    ensures ROW_PUTS[22].1 == "prezzoRiferimento" + "," + "dataOraPrezzoRifermento"
  {
  }

  lemma PairText23()
    ensures ROW_PUTS[23].1 == "prezzoUfficiale" + "," + "dataPrezzoUfficiale"
  {
  }

  /** Right row 7 names the reference price and the date-time it refers to. */
  lemma ReferenceEntry(side: string, row: int) returns (a: string, b: string)
    requires side == "right" && row == 7
    ensures a == "prezzoRiferimento" && b == "dataOraPrezzoRifermento"
    ensures RowKey(side, row) in ROW_TO_PROP && JavaSplit(ROW_TO_PROP[RowKey(side, row)], ",") == [a, b]
  {
    a, b := "prezzoRiferimento", "dataOraPrezzoRifermento";
    assert ROW_TO_PROP[RowKey(side, row)] == a + "," + b by {
      RowToPropValue(side, row);
      assert PlaceIndex(side, row) == 22;
      PairText22();
    }
    ReferenceNamesLack(a, b);
    SplitPair(a, b);
  }

  /** Right row 8 names the official price and the date it refers to. */
  lemma OfficialEntry(side: string, row: int) returns (a: string, b: string)
    requires side == "right" && row == 8
    ensures a == "prezzoUfficiale" && b == "dataPrezzoUfficiale"
    ensures RowKey(side, row) in ROW_TO_PROP && JavaSplit(ROW_TO_PROP[RowKey(side, row)], ",") == [a, b]
  {
    a, b := "prezzoUfficiale", "dataPrezzoUfficiale";
    assert ROW_TO_PROP[RowKey(side, row)] == a + "," + b by {
      RowToPropValue(side, row);
      assert PlaceIndex(side, row) == 23;
      PairText23();
    }
    OfficialNamesLack(a, b);
    SplitPair(a, b);
  }

  /** Text without the character `c`. */
  predicate Lacks(s: string, c: char) {
    forall i :: 0 <= i < |s| ==> s[i] != c
  }

  lemma ReferenceNamesLack(a: string, b: string)
    requires a == "prezzoRiferimento" && b == "dataOraPrezzoRifermento"
    ensures Lacks(a, ',') && Lacks(b, ',') && b != []
  {
  }

  lemma OfficialNamesLack(a: string, b: string)
    requires a == "prezzoUfficiale" && b == "dataPrezzoUfficiale"
    ensures Lacks(a, ',') && Lacks(b, ',') && b != []
  {
  }

  /** Two comma-free names joined by a comma split back into the two. */
  lemma SplitPair(a: string, b: string)
    requires Lacks(a, ',') && Lacks(b, ',') && b != []
    ensures JavaSplit(a + "," + b, ",") == [a, b]
  {
    SplitTwo(a, b, ',');
  }

  /** The entry of every place names one property, except at the four pair
      places, which name a value and a date; every name is already stripped
      and has a type in `propToType`. */
  lemma EntryProps(side: string, row: int)
    requires IsPlace(side, row)
    ensures RowKey(side, row) in ROW_TO_PROP
    ensures EntryShape(ROW_TO_PROP[RowKey(side, row)], IsPairPlace(side, row))
  {
    RowToPropValue(side, row);
    Entries();
    var i := PlaceIndex(side, row);
    assert EntryShape(ROW_PUTS[i].1, IsPairPlace(PlaceSide(i), PlaceRow(i)));
  }

  // The types

  /** `numeroContratti` is read as an `Integer`. */
  lemma CountType()
    ensures "numeroContratti" in PROP_TO_TYPE && PROP_TO_TYPE["numeroContratti"] == IntegerType
  {
    PutsLookup(TYPE_PUTS, 15);
  }

  /** The properties that carry a time of day are read as date-times. */
  lemma DateTimeTypes()
    ensures "dataOraUltimoContratto" in PROP_TO_TYPE && PROP_TO_TYPE["dataOraUltimoContratto"] == LocalDateTimeType
    ensures "dataOraPrezzoRifermento" in PROP_TO_TYPE && PROP_TO_TYPE["dataOraPrezzoRifermento"] == LocalDateTimeType
  {
    TypeOfPut12();
    TypeOfPut25();
  }

  /** The other date properties are read as dates. */
  lemma DateTypes()
    ensures "maxAnnoDate" in PROP_TO_TYPE && PROP_TO_TYPE["maxAnnoDate"] == LocalDateType
    ensures "minAnnoDate" in PROP_TO_TYPE && PROP_TO_TYPE["minAnnoDate"] == LocalDateType
    ensures "dataPrezzoUfficiale" in PROP_TO_TYPE && PROP_TO_TYPE["dataPrezzoUfficiale"] == LocalDateType
  {
    TypeOfPut19();
    TypeOfPut22();
    TypeOfPut27();
  }

  lemma TypeOfPut12()
    ensures "dataOraUltimoContratto" in PROP_TO_TYPE && PROP_TO_TYPE["dataOraUltimoContratto"] == LocalDateTimeType
  {
    PutsLookup(TYPE_PUTS, 12);
  }

  lemma TypeOfPut19()
    ensures "maxAnnoDate" in PROP_TO_TYPE && PROP_TO_TYPE["maxAnnoDate"] == LocalDateType
  {
    PutsLookup(TYPE_PUTS, 19);
  }

  lemma TypeOfPut22()
    ensures "minAnnoDate" in PROP_TO_TYPE && PROP_TO_TYPE["minAnnoDate"] == LocalDateType
  {
    PutsLookup(TYPE_PUTS, 22);
  }

  lemma TypeOfPut25()
    ensures "dataOraPrezzoRifermento" in PROP_TO_TYPE && PROP_TO_TYPE["dataOraPrezzoRifermento"] == LocalDateTimeType
  {
    PutsLookup(TYPE_PUTS, 25);
  }

  lemma TypeOfPut27()
    ensures "dataPrezzoUfficiale" in PROP_TO_TYPE && PROP_TO_TYPE["dataPrezzoUfficiale"] == LocalDateType
  {
    PutsLookup(TYPE_PUTS, 27);
  }

  /** An entry naming the property of `put` number `j` of `propToType`. */
  lemma SingleEntry(entry: string, j: nat)
    requires j < |TYPE_PUTS| && TYPE_PUTS[j].0 == entry
    requires forall i :: 0 <= i < |entry| ==> entry[i] != ','
    requires Bare(entry)
    ensures EntryShape(entry, false)
  {
    SplitOne(entry, ',');
  }

  /** An entry naming a value property and a date property. */
  lemma PairEntry(entry: string, value: string, j: nat, date: string, k: nat)
    requires entry == value + "," + date
    requires j < |TYPE_PUTS| && TYPE_PUTS[j].0 == value && k < |TYPE_PUTS| && TYPE_PUTS[k].0 == date
    requires forall i :: 0 <= i < |value| ==> value[i] != ','
    requires forall i :: 0 <= i < |date| ==> date[i] != ','
    requires Bare(value) && Bare(date)
    ensures EntryShape(entry, true)
  {
    SplitTwo(value, date, ',');
  }

  /** `split` of text without the separator character. */
  lemma SplitOne(s: string, c: char)
    requires forall i :: 0 <= i < |s| ==> s[i] != c
    ensures JavaSplit(s, [c]) == [s]
  {
    forall j: nat ensures !OccursAt(s, [c], j) {
      if j + 1 <= |s| {
        assert s[j..j + 1][0] == s[j];
      }
    }
  }

  /** `split` of two pieces joined by the separator character. */
  lemma SplitTwo(a: string, b: string, c: char)
    requires forall i :: 0 <= i < |a| ==> a[i] != c
    requires forall i :: 0 <= i < |b| ==> b[i] != c
    requires b != []
    ensures JavaSplit(a + [c] + b, [c]) == [a, b]
  {
    var s := a + [c] + b;
    assert OccursAt(s, [c], |a|) by {
      assert s[|a|..|a| + 1] == [c];
    }
    var f := FindFrom(s, [c], 0);
    assert f.Some? && f.value <= |a|;
    assert s[f.value..f.value + 1][0] == s[f.value];
    assert f.value >= |a|;
    assert s[..|a|] == a && s[|a| + 1..] == b;
    SplitOne(b, c);
    assert SplitAll(b, [c]) == [b];
  }
}
