/** The positional field locator of the `scraper` crate: every property has
    a fixed `side_N` place on the page, the N-th value cell of the left
    (first) or right (second) table. */
module Selectors {
  import opened Common
  import opened Numbers
  import opened Parsers
  import opened Page

  /** `usize` values are below 2^64. */
  const USIZE_BOUND: nat := 0x1_0000_0000_0000_0000

  /** The properties of the lookup table, in the order of its arms: the first
      sixteen sit on the left, the other twelve on the right. */
  const SELECTOR_PROPS: seq<string> :=
    ["codice_isin", "id_strumento", "codice_alfanumerico", "super_sector"]
    + ["mercato_segmento", "capitalizzazione_di_mercato", "lotto_minimo", "fase_di_mercato"]
    + ["prezzo_ultimo_contratto", "var_percentuale", "var_assoluta", "pr_medio_progr"]
    + ["data_ora_ultimo_contratto", "quantita_ultimo", "quantita_totale", "numero_contratti"]
    + ["controvalore", "max_oggi", "max_anno", "min_oggi"]
    + ["min_anno", "chiusura_precedente", "prezzo_riferimento", "prezzo_ufficiale"]
    + ["apertura_odierna", "performance_1_mese", "performance_6_mesi", "performance_1_anno"]

  const LEFT_ROWS: nat := 16

  /** The first position of `p` in `ps`. */
  function IndexOf(ps: seq<string>, p: string): (r: Option<nat>)
    ensures r.Some? ==> r.value < |ps| && ps[r.value] == p && forall j :: 0 <= j < r.value ==> ps[j] != p
    ensures r.None? <==> p !in ps
  {
    if ps == [] then None
    else if ps[0] == p then Some(0)
    else match IndexOf(ps[1..], p)
      case None => None
      case Some(k) => Some(k + 1)
  }

  /** The side of arm `i`: the first sixteen arms are on the left. */
  function Side(i: nat): string {
    if i < LEFT_ROWS then "left" else "right"
  }

  /** The 1-based row of arm `i` on its side. */
  function SideRow(i: nat): nat {
    if i < LEFT_ROWS then i + 1 else i - LEFT_ROWS + 1
  }

  /** The place name of the property in arm `i`: `left_1` ... `left_16`,
      then `right_1` ... `right_12`. */
  function RowName(i: nat): string
    requires i < |SELECTOR_PROPS|
  {
    Side(i) + "_" + DecimalString(SideRow(i))
  }

  /** The (table, cell) position of arm `i`. */
  function Position(i: nat): (nat, nat)
    requires i < |SELECTOR_PROPS|
  {
    (if i < LEFT_ROWS then 0 else 1, SideRow(i) - 1)
  }

  /** The lookup `match` of `select_for_prop`: the place name of a known
      property, `None` for any other name. */
  function RowFor(prop: string): (r: Option<string>)
    ensures r.None? <==> prop !in SELECTOR_PROPS
    ensures r.Some? ==> exists i :: 0 <= i < |SELECTOR_PROPS| && SELECTOR_PROPS[i] == prop && r.value == RowName(i)
  {
    match IndexOf(SELECTOR_PROPS, prop)
    case None => None
    case Some(i) => Some(RowName(i))
  }

  /** `parse_row_str`: `left_N` and `right_N` give table 0 and 1 and cell
      `N - 1` (with `usize` wrap-around for `N = 0`); any other side, a
      missing `_` or an index that is not a `usize` gives `None`. */
  function ParseRowStr(raw: string): (r: Option<(nat, nat)>)
    ensures !Contains(raw, "_") ==> r.None?
    ensures r.Some? ==> r.value.0 <= 1 && r.value.1 < USIZE_BOUND
    ensures r.Some? ==>
      var (side, rowStr) := SplitOnce(raw, "_").value;
      && side == (if r.value.0 == 0 then "left" else "right")
      && RustParseUnsigned(rowStr, USIZE_BOUND) == Some((r.value.1 + 1) % USIZE_BOUND)
    ensures SplitOnce(raw, "_").Some? && SplitOnce(raw, "_").value.0 != "left" && SplitOnce(raw, "_").value.0 != "right" ==> r.None?
    ensures SplitOnce(raw, "_").Some? && RustParseUnsigned(SplitOnce(raw, "_").value.1, USIZE_BOUND).None? ==> r.None?
  {
    match SplitOnce(raw, "_")
    case None => None
    case Some((side, rowStr)) =>
      match RustParseUnsigned(rowStr, USIZE_BOUND)
      case None => None
      case Some(row) =>
        var idx := if row == 0 then USIZE_BOUND - 1 else row - 1;
        if side == "left" then Some((0, idx))
        else if side == "right" then Some((1, idx))
        else None
  }

  /** The `n`-th value among all the value cells of table `t` of `tables`. */
  function Cell(tables: seq<Table>, t: nat, n: nat): Option<Element> {
    if t < |tables| && n < |ValueCells(tables[t])| then Some(ValueCells(tables[t])[n]) else None
  }

  /** `select_for_prop`, given the tables that the `table:nth-of-type(1)`
      selector matches, in document order. */
  function SelectForProp(prop: string, tables: seq<Table>): (r: Option<Element>)
    ensures prop !in SELECTOR_PROPS ==> r.None?
    ensures r.Some? ==> exists t, n :: r == Cell(tables, t, n)
  {
    match RowFor(prop)
    case None => None
    case Some(row) =>
      match ParseRowStr(row)
      case None => None
      case Some((t, n)) => Cell(tables, t, n)
  }

  /** A decimal index after a side without `_` reads back. */
  lemma ParseRowStrRoundTrip(side: string, n: nat)
    requires side == "left" || side == "right"
    requires 1 <= n < USIZE_BOUND
    ensures ParseRowStr(side + "_" + DecimalString(n)) == Some((if side == "left" then 0 else 1, n - 1))
  {
    SplitOnceFirst(side, "_", DecimalString(n));
    var d := DecimalString(n);
    assert d[0] != '+';
    assert RustParseUnsigned(d, USIZE_BOUND) == Some(n);
  }

  /** Every place name of the table reads back as its own position. */
  lemma RowNameRoundTrip(i: nat)
    requires i < |SELECTOR_PROPS|
    ensures ParseRowStr(RowName(i)) == Some(Position(i))
  {
    ParseRowStrRoundTrip(Side(i), SideRow(i));
  }

  /** Different properties never share a place. */
  lemma RowForInjective(p: string, q: string)
    requires RowFor(p).Some? && RowFor(p) == RowFor(q)
    ensures p == q
  {
    var i :| 0 <= i < |SELECTOR_PROPS| && SELECTOR_PROPS[i] == p && RowFor(p).value == RowName(i);
    var j :| 0 <= j < |SELECTOR_PROPS| && SELECTOR_PROPS[j] == q && RowFor(q).value == RowName(j);
    RowNameRoundTrip(i);
    RowNameRoundTrip(j);
    assert Position(i) == Position(j);
    PositionInjective(i, j);
  }

  lemma PositionInjective(i: nat, j: nat)
    requires i < |SELECTOR_PROPS| && j < |SELECTOR_PROPS|
    requires Position(i) == Position(j)
    ensures i == j
  {
  }

  /** The twenty-eight properties of the table are all different. */
  lemma SelectorPropsDistinct()
    ensures forall i, j :: 0 <= i < j < |SELECTOR_PROPS| ==> SELECTOR_PROPS[i] != SELECTOR_PROPS[j]
  {
  }

  /** Arm `i` gives property `i` its own place. */
  lemma RowForArm(i: nat)
    requires i < |SELECTOR_PROPS|
    ensures RowFor(SELECTOR_PROPS[i]) == Some(RowName(i))
  {
    SelectorPropsDistinct();
  }

  /** A known property is read from its place: the cell at its position, or
      `None` when that table or that cell is missing. */
  lemma SelectForPropAt(i: nat, tables: seq<Table>)
    requires i < |SELECTOR_PROPS|
    ensures SelectForProp(SELECTOR_PROPS[i], tables) == Cell(tables, Position(i).0, Position(i).1)
    ensures |tables| <= Position(i).0 ==> SelectForProp(SELECTOR_PROPS[i], tables).None?
  {
    RowForArm(i);
    RowNameRoundTrip(i);
  }

  /** The ends of both sides: `codice_isin` is `left_1`, `numero_contratti`
      `left_16`, `controvalore` `right_1`, `performance_1_anno` `right_12`. */
  lemma RowForExamples()
    ensures RowFor("codice_isin") == Some("left_1")
    ensures RowFor("numero_contratti") == Some("left_16")
    ensures RowFor("controvalore") == Some("right_1")
    ensures RowFor("performance_1_anno") == Some("right_12")
  {
    LeftExamples();
    RightExamples();
  }

  lemma LeftExamples()
    ensures RowFor("codice_isin") == Some("left_1")
    ensures RowFor("numero_contratti") == Some("left_16")
  {
    assert DecimalString(1) == "1" && DecimalString(16) == "16";
    RowForNamed(0, "codice_isin", "left_1");
    RowForNamed(15, "numero_contratti", "left_16");
  }

  lemma RightExamples()
    ensures RowFor("controvalore") == Some("right_1")
    ensures RowFor("performance_1_anno") == Some("right_12")
  {
    RightFirst();
    RightLast();
  }

  lemma RightFirst()
    ensures RowFor("controvalore") == Some("right_1")
  {
    assert DecimalString(1) == "1";
    assert RowName(16) == "right_" + DecimalString(1);
    RowForNamed(16, "controvalore", "right_1");
  }

  lemma RightLast()
    ensures RowFor("performance_1_anno") == Some("right_12")
  {
    assert DecimalString(12) == "12";
    assert RowName(27) == "right_" + DecimalString(12);
    RowForNamed(27, "performance_1_anno", "right_12");
  }

  lemma RowForNamed(i: nat, p: string, name: string)
    requires i < |SELECTOR_PROPS| && SELECTOR_PROPS[i] == p && RowName(i) == name
    ensures RowFor(p) == Some(name)
  {
    RowForArm(i);
  }

  /** Any text other than `left` or `right` before the `_`, a missing `_`, or
      an index that is not a number gives `None`. */
  lemma ParseRowStrRejects()
    ensures ParseRowStr("middle_1").None?
    ensures ParseRowStr("left1").None?
    ensures ParseRowStr("left_x").None?
  {
    OtherSideRejected("middle_1");
    NoUnderscoreRejected("left1");
    BadIndexRejected("left_x");
  }

  lemma OtherSideRejected(raw: string)
    requires raw == "middle_1"
    ensures ParseRowStr(raw).None?
  {
    SplitOnceFirst("middle", "_", "1");
  }

  lemma NoUnderscoreRejected(raw: string)
    requires raw == "left1"
    ensures ParseRowStr(raw).None?
  {
    forall i | 0 <= i < |raw| ensures raw[i] != '_' { }
    FindAbsent(raw, '_', 0);
  }

  lemma BadIndexRejected(raw: string)
    requires raw == "left_x"
    ensures ParseRowStr(raw).None?
  {
    SplitOnceFirst("left", "_", "x");
  }
}
