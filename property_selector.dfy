/** The label-driven field locator of the `scraper` crate: it indexes the rows
    of every table by the lower-cased text of their `strong` label and
    records, for each property, the label that one of its search terms
    matched. */
module PropertySelectors {
  import opened Common
  import opened Parsers
  import opened Page
  import opened Selectors

  /** A property and the label fragments that identify its row. */
  datatype Mapping = Mapping(prop: string, terms: seq<string>)

  /** The property-to-label table, in order (written in groups of four,
      which keeps indexing into it cheap for the verifier). */
  const MAPPINGS: seq<Mapping> :=
    [
      Mapping("id_strumento", ["id strumento"]),
      Mapping("codice_alfanumerico", ["codice alfanumerico"]),
      Mapping("super_sector", ["super sector"]),
      Mapping("mercato_segmento", ["mercato/segmento"])
    ]
    + [
      Mapping("capitalizzazione_di_mercato", ["capitalizzazione di mercato"]),
      Mapping("lotto_minimo", ["lotto minimo"]),
      Mapping("fase_di_mercato", ["fase di mercato"]),
      Mapping("prezzo_ultimo_contratto", ["prezzo ultimo contratto"])
    ]
    + [
      Mapping("var_percentuale", ["var %"]),
      Mapping("var_assoluta", ["var assoluta"]),
      Mapping("pr_medio_progr", ["pr medio progr"]),
      Mapping("data_ora_ultimo_contratto", ["data - ora ultimo contratto:"])
    ]
    + [
      Mapping("quantita_ultimo", ["quantità ultimo"]),
      Mapping("quantita_totale", ["quantità totale"]),
      Mapping("numero_contratti", ["numero contratti"]),
      Mapping("controvalore", ["controvalore"])
    ]
    + [
      Mapping("max_oggi", ["max oggi"]),
      Mapping("max_anno", ["max anno"]),
      Mapping("min_oggi", ["min oggi"]),
      Mapping("min_anno", ["min anno"])
    ]
    + [
      Mapping("chiusura_precedente", ["chiusura precedente/pre-chiusura/chiusura:"]),
      Mapping("prezzo_riferimento", ["prezzo di riferimento"]),
      Mapping("prezzo_ufficiale", ["prezzo ufficiale"]),
      Mapping("apertura_odierna", ["apertura odierna:"])
    ]
    + [
      Mapping("performance_1_mese", ["performance 1 mese"]),
      Mapping("performance_6_mesi", ["performance 6 mesi"]),
      Mapping("performance_1_anno", ["performance 1 anno"])
    ]

  /** `index` maps a lower-cased label to its row; `propMapping` maps a
      property to the label it was found under. */
  datatype PropertySelector = PropertySelector(index: map<string, Row>, propMapping: map<string, string>) {
    /** `get_property`: the first value cell of the row recorded for `prop`;
        `None` when the property was never matched, when its label has no
        row, or when the row has no value cell. */
    function GetProperty(prop: string): (r: Option<Element>)
      ensures prop !in propMapping ==> r.None?
      ensures r.Some? ==> prop in propMapping && propMapping[prop] in index
      ensures r.Some? ==> var row := index[propMapping[prop]]; row.values != [] && r.value == row.values[0]
    {
      if prop !in propMapping then None
      else
        var text := propMapping[prop];
        if text !in index then None
        else FirstValue(index[text])
    }
  }

  const EMPTY: PropertySelector := PropertySelector(map[], map[])

  /** The first value cell of a row. */
  function FirstValue(row: Row): (r: Option<Element>)
    ensures r.None? <==> row.values == []
    ensures r.Some? ==> r.value == row.values[0]
  {
    if row.values == [] then None else Some(row.values[0])
  }

  /** The lower-cased label of a row that has a `strong` element. */
  function LabelOf(row: Row): (r: Option<string>)
    ensures r.Some? <==> row.strongText.Some?
    ensures r.Some? ==> r.value == ToLower(row.strongText.value)
  {
    match row.strongText
    case None => None
    case Some(t) => Some(ToLower(t))
  }

  /** Some search term is a substring of the label. */
  predicate AnyContains(terms: seq<string>, text: string) {
    exists k :: 0 <= k < |terms| && Contains(text, terms[k])
  }

  /** The row has a label and the label holds one of the terms. */
  predicate RowMatches(terms: seq<string>, row: Row) {
    LabelOf(row).Some? && AnyContains(terms, LabelOf(row).value)
  }

  /** All rows of all tables, in document order. */
  function Rows(doc: Document): seq<Row> {
    if doc == [] then [] else Rows(doc[..|doc| - 1]) + doc[|doc| - 1]
  }

  /** What the innermost loop body does with one row for mapping `m`. */
  function Step(m: Mapping, row: Row, sel: PropertySelector): PropertySelector {
    if RowMatches(m.terms, row) then
      var text := LabelOf(row).value;
      PropertySelector(sel.index[text := row], sel.propMapping[m.prop := text])
    else sel
  }

  /** The rows scanned in order for one mapping. */
  function ScanRows(m: Mapping, rows: seq<Row>, sel: PropertySelector): PropertySelector
    decreases |rows|
  {
    if rows == [] then sel else Step(m, rows[|rows| - 1], ScanRows(m, rows[..|rows| - 1], sel))
  }

  /** The mappings processed in order, each over all rows. */
  function ScanMappings(ms: seq<Mapping>, rows: seq<Row>, sel: PropertySelector): PropertySelector
    decreases |ms|
  {
    if ms == [] then sel else ScanRows(ms[|ms| - 1], rows, ScanMappings(ms[..|ms| - 1], rows, sel))
  }

  /** What `PropertySelector::new` builds from a document. */
  function Build(doc: Document): PropertySelector {
    ScanMappings(MAPPINGS, Rows(doc), EMPTY)
  }

  /** The last row, in document order, that the terms match. */
  function LastMatching(terms: seq<string>, rows: seq<Row>): (r: Option<Row>)
    ensures r.Some? ==> r.value in rows && RowMatches(terms, r.value)
    ensures r.None? <==> forall i :: 0 <= i < |rows| ==> !RowMatches(terms, rows[i])
  {
    if rows == [] then None
    else if RowMatches(terms, rows[|rows| - 1]) then Some(rows[|rows| - 1])
    else LastMatching(terms, rows[..|rows| - 1])
  }

  /** The last row, in document order, whose lower-cased label is `text`. */
  function LastWithLabel(rows: seq<Row>, text: string): (r: Option<Row>)
    ensures r.Some? ==> r.value in rows && LabelOf(r.value) == Some(text)
    ensures r.None? <==> forall i :: 0 <= i < |rows| ==> LabelOf(rows[i]) != Some(text)
  {
    if rows == [] then None
    else if LabelOf(rows[|rows| - 1]) == Some(text) then Some(rows[|rows| - 1])
    else LastWithLabel(rows[..|rows| - 1], text)
  }

  /** Every recorded label has a row, every row sits under its own label, and
      only properties of `ms` are recorded. */
  predicate WellFormed(sel: PropertySelector, ms: seq<Mapping>) {
    && (forall p :: p in sel.propMapping ==> sel.propMapping[p] in sel.index)
    && (forall text :: text in sel.index ==> LabelOf(sel.index[text]) == Some(text))
    && (forall p :: p in sel.propMapping ==> exists i :: 0 <= i < |ms| && ms[i].prop == p)
  }

  /** `PropertySelector::new`: for every mapping, every table and every row,
      a row whose lower-cased `strong` text contains one of the mapping's
      terms is indexed under that text, and the property is pointed at it. */
  method NewPropertySelector(document: Document) returns (s: PropertySelector)
    ensures s == Build(document)
    ensures WellFormed(s, MAPPINGS)
  {
    var index: map<string, Row> := map[];
    var propMapping: map<string, string> := map[];
    var i := 0;
    while i < |MAPPINGS|
      invariant 0 <= i <= |MAPPINGS|
      invariant PropertySelector(index, propMapping) == ScanMappings(MAPPINGS[..i], Rows(document), EMPTY)
    {
      var m := MAPPINGS[i];
      var rustProp := m.prop;
      var searchTerms := m.terms;
      ghost var before := PropertySelector(index, propMapping);
      var t := 0;
      while t < |document|
        invariant 0 <= t <= |document|
        invariant PropertySelector(index, propMapping) == ScanRows(m, Rows(document[..t]), before)
      {
        var table := document[t];
        var r := 0;
        TableStarts(Rows(document[..t]), table);
        while r < |table|
          invariant 0 <= r <= |table|
          invariant PropertySelector(index, propMapping) == ScanRows(m, Rows(document[..t]) + table[..r], before)
        {
          var row := table[r];
          RowStep(m, Rows(document[..t]), table, r, before);
          if row.strongText.Some? {
            var text := ToLower(row.strongText.value);
            if AnyContains(searchTerms, text) {
              index := index[text := row];
              propMapping := propMapping[rustProp := text];
            }
          }
          r := r + 1;
        }
        TableEnds(document, t);
        t := t + 1;
      }
      MappingStep(MAPPINGS, i, document);
      i := i + 1;
    }
    assert MAPPINGS[..i] == MAPPINGS;
    s := PropertySelector(index, propMapping);
    BuildWellFormed(document);
  }

  lemma ScanRowsSnoc(m: Mapping, rows: seq<Row>, row: Row, sel: PropertySelector)
    ensures ScanRows(m, rows + [row], sel) == Step(m, row, ScanRows(m, rows, sel))
  {
    assert (rows + [row])[..|rows|] == rows;
  }

  /** The row loop starts with the rows of the earlier tables. */
  lemma TableStarts(rows: seq<Row>, table: seq<Row>)
    ensures rows + table[..0] == rows
  {
  }

  /** One more row of the current table is one more step. */
  lemma RowStep(m: Mapping, rows: seq<Row>, table: seq<Row>, r: nat, sel: PropertySelector)
    requires r < |table|
    ensures ScanRows(m, rows + table[..r + 1], sel) == Step(m, table[r], ScanRows(m, rows + table[..r], sel))
  {
    assert rows + table[..r + 1] == (rows + table[..r]) + [table[r]];
    ScanRowsSnoc(m, rows + table[..r], table[r], sel);
  }

  /** A whole table scanned is the rows of one more table. */
  lemma TableEnds(doc: Document, t: nat)
    requires t < |doc|
    ensures Rows(doc[..t]) + doc[t][..|doc[t]|] == Rows(doc[..t + 1])
  {
    assert doc[..t + 1][..t] == doc[..t];
    assert doc[t][..|doc[t]|] == doc[t];
  }

  /** A whole document scanned for mapping `i` is one more mapping. */
  lemma MappingStep(ms: seq<Mapping>, i: nat, doc: Document)
    requires i < |ms|
    ensures ScanMappings(ms[..i + 1], Rows(doc), EMPTY) == ScanRows(ms[i], Rows(doc[..|doc|]), ScanMappings(ms[..i], Rows(doc), EMPTY))
  {
    assert ms[..i + 1][..i] == ms[..i];
    assert doc[..|doc|] == doc;
  }

  /** One row step keeps the selector well formed. */
  lemma StepWellFormed(m: Mapping, row: Row, sel: PropertySelector, ms: seq<Mapping>)
    requires WellFormed(sel, ms) && m in ms
    ensures WellFormed(Step(m, row, sel), ms)
  {
    var i :| 0 <= i < |ms| && ms[i] == m;
  }

  lemma {:induction false} ScanRowsWellFormed(m: Mapping, rows: seq<Row>, sel: PropertySelector, ms: seq<Mapping>)
    requires WellFormed(sel, ms) && m in ms
    ensures WellFormed(ScanRows(m, rows, sel), ms)
    decreases |rows|
  {
    if rows != [] {
      ScanRowsWellFormed(m, rows[..|rows| - 1], sel, ms);
      StepWellFormed(m, rows[|rows| - 1], ScanRows(m, rows[..|rows| - 1], sel), ms);
    }
  }

  lemma {:induction false} ScanMappingsWellFormed(ms: seq<Mapping>, rows: seq<Row>, all: seq<Mapping>)
    requires forall i :: 0 <= i < |ms| ==> ms[i] in all
    ensures WellFormed(ScanMappings(ms, rows, EMPTY), all)
    decreases |ms|
  {
    if ms != [] {
      ScanMappingsWellFormed(ms[..|ms| - 1], rows, all);
      ScanRowsWellFormed(ms[|ms| - 1], rows, ScanMappings(ms[..|ms| - 1], rows, EMPTY), all);
    }
  }

  /** Every label a property points at is a key of the index; every indexed
      row carries its key as label; only the listed properties get recorded. */
  lemma BuildWellFormed(doc: Document)
    ensures WellFormed(Build(doc), MAPPINGS)
  {
    ScanMappingsWellFormed(MAPPINGS, Rows(doc), MAPPINGS);
  }

  /** A map lookup as an `Option`. */
  function Lookup<V>(mp: map<string, V>, k: string): Option<V> {
    if k in mp then Some(mp[k]) else None
  }

  predicate DistinctProps(ms: seq<Mapping>) {
    forall a, b :: 0 <= a < b < |ms| ==> ms[a].prop != ms[b].prop
  }

  /** After one mapping's scan its property points at the label of the last
      matching row; no other property changes. */
  lemma {:induction false} ScanRowsProp(m: Mapping, rows: seq<Row>, sel: PropertySelector)
    ensures ScanRows(m, rows, sel).propMapping ==
      match LastMatching(m.terms, rows)
      case None => sel.propMapping
      case Some(r) => sel.propMapping[m.prop := LabelOf(r).value]
    decreases |rows|
  {
    if rows != [] {
      var pre := rows[..|rows| - 1];
      ScanRowsProp(m, pre, sel);
      var x := rows[|rows| - 1];
      if RowMatches(m.terms, x) {
        match LastMatching(m.terms, pre)
        case None =>
        case Some(r) =>
          var mp := sel.propMapping;
          assert mp[m.prop := LabelOf(r).value][m.prop := LabelOf(x).value] == mp[m.prop := LabelOf(x).value];
      }
    }
  }

  /** After one mapping's scan a label that holds one of its terms is indexed
      under the last row carrying it; other labels keep their rows. */
  lemma {:induction false} ScanRowsIndex(m: Mapping, rows: seq<Row>, sel: PropertySelector, text: string)
    ensures Lookup(ScanRows(m, rows, sel).index, text) ==
      if AnyContains(m.terms, text) && LastWithLabel(rows, text).Some? then LastWithLabel(rows, text)
      else Lookup(sel.index, text)
    decreases |rows|
  {
    if rows != [] {
      ScanRowsIndex(m, rows[..|rows| - 1], sel, text);
    }
  }

  /** Every indexed row is the last row of the document carrying its label. */
  predicate IndexLatest(sel: PropertySelector, rows: seq<Row>) {
    forall text :: text in sel.index ==> LastWithLabel(rows, text) == Some(sel.index[text])
  }

  lemma ScanRowsLatest(m: Mapping, rows: seq<Row>, sel: PropertySelector)
    requires IndexLatest(sel, rows)
    ensures IndexLatest(ScanRows(m, rows, sel), rows)
  {
    forall text | text in ScanRows(m, rows, sel).index
      ensures LastWithLabel(rows, text) == Some(ScanRows(m, rows, sel).index[text])
    {
      ScanRowsIndex(m, rows, sel, text);
    }
  }

  lemma {:induction false} ScanMappingsLatest(ms: seq<Mapping>, rows: seq<Row>)
    ensures IndexLatest(ScanMappings(ms, rows, EMPTY), rows)
    decreases |ms|
  {
    if ms != [] {
      ScanMappingsLatest(ms[..|ms| - 1], rows);
      ScanRowsLatest(ms[|ms| - 1], rows, ScanMappings(ms[..|ms| - 1], rows, EMPTY));
    }
  }

  /** Mappings for other properties leave a property alone. */
  lemma {:induction false} ScanMappingsOther(ms: seq<Mapping>, rows: seq<Row>, sel: PropertySelector, p: string)
    requires forall j :: 0 <= j < |ms| ==> ms[j].prop != p
    ensures Lookup(ScanMappings(ms, rows, sel).propMapping, p) == Lookup(sel.propMapping, p)
    decreases |ms|
  {
    if ms != [] {
      ScanMappingsOther(ms[..|ms| - 1], rows, sel, p);
      ScanRowsProp(ms[|ms| - 1], rows, ScanMappings(ms[..|ms| - 1], rows, sel));
    }
  }

  /** With distinct properties, mapping `i` alone decides its property: the
      label of the last row its terms match, or what was there before. */
  lemma {:induction false} ScanMappingsProp(ms: seq<Mapping>, rows: seq<Row>, sel: PropertySelector, i: nat)
    requires DistinctProps(ms) && i < |ms|
    ensures Lookup(ScanMappings(ms, rows, sel).propMapping, ms[i].prop) ==
      match LastMatching(ms[i].terms, rows)
      case None => Lookup(sel.propMapping, ms[i].prop)
      case Some(r) => LabelOf(r)
    decreases |ms|
  {
    var n := |ms| - 1;
    var pre := ms[..n];
    var before := ScanMappings(pre, rows, sel);
    ScanRowsProp(ms[n], rows, before);
    if i == n {
      ScanMappingsOther(pre, rows, sel, ms[i].prop);
    } else {
      assert pre[i] == ms[i];
      ScanMappingsProp(pre, rows, sel, i);
    }
  }

  /** The last row a mapping's terms match is the last row carrying its label. */
  lemma {:induction false} LastMatchingLabel(terms: seq<string>, rows: seq<Row>, r: Row)
    requires LastMatching(terms, rows) == Some(r)
    ensures LastWithLabel(rows, LabelOf(r).value) == Some(r)
    decreases |rows|
  {
    var x := rows[|rows| - 1];
    if !RowMatches(terms, x) {
      LastMatchingLabel(terms, rows[..|rows| - 1], r);
      assert LabelOf(x) != LabelOf(r);
    }
  }

  /** The properties of the table differ pairwise. */
  lemma MappingsDistinct()
    ensures DistinctProps(MAPPINGS)
  {
    MappingsArePositional();
    SelectorPropsDistinct();
  }

  /** The label index covers the positional table's properties in the same
      order, all but its first, `codice_isin`. */
  lemma MappingsArePositional()
    ensures |MAPPINGS| + 1 == |SELECTOR_PROPS|
    ensures forall i :: 0 <= i < |MAPPINGS| ==> MAPPINGS[i].prop == SELECTOR_PROPS[i + 1]
  {
  }

  /** A property of the table points at the label of the last row, in
      document order, whose lower-cased `strong` text holds one of its terms,
      and is unrecorded when no row does. */
  lemma BuildProp(doc: Document, i: nat)
    requires i < |MAPPINGS|
    ensures Lookup(Build(doc).propMapping, MAPPINGS[i].prop) ==
      match LastMatching(MAPPINGS[i].terms, Rows(doc))
      case None => None
      case Some(r) => LabelOf(r)
    ensures MAPPINGS[i].prop in Build(doc).propMapping <==>
      exists k :: 0 <= k < |Rows(doc)| && RowMatches(MAPPINGS[i].terms, Rows(doc)[k])
  {
    MappingsDistinct();
    ScanMappingsProp(MAPPINGS, Rows(doc), EMPTY, i);
  }

  /** What `get_property` finds for a property of the table: the first value
      cell of the last row whose label holds one of its terms. */
  lemma GetPropertyOfBuild(doc: Document, i: nat)
    requires i < |MAPPINGS|
    ensures Build(doc).GetProperty(MAPPINGS[i].prop) ==
      match LastMatching(MAPPINGS[i].terms, Rows(doc))
      case None => None
      case Some(r) => FirstValue(r)
  {
    BuildProp(doc, i);
    BuildWellFormed(doc);
    ScanMappingsLatest(MAPPINGS, Rows(doc));
    match LastMatching(MAPPINGS[i].terms, Rows(doc))
    case None =>
    case Some(r) =>
      LastMatchingLabel(MAPPINGS[i].terms, Rows(doc), r);
  }

  /** There are twenty-seven mappings and `codice_isin` is not one of them,
      so the label index never finds it. */
  lemma CodiceIsinUnmapped(doc: Document)
    ensures |MAPPINGS| == 27
    ensures forall i :: 0 <= i < |MAPPINGS| ==> MAPPINGS[i].prop != "codice_isin"
    ensures Build(doc).GetProperty("codice_isin").None?
  {
    BuildWellFormed(doc);
  }
}
