/** The share page as the field locators see it, once the HTML engine has
    run: a sequence of tables, each a sequence of rows. */
module Page {
  import opened Common
  import opened Parsers

  /** A `tr` row: the text of its first `strong` element, if it has one, and
      its value cells (the `span.t-text.-right` elements), in document order. */
  datatype Row = Row(strongText: Option<string>, values: seq<Element>)

  type Table = seq<Row>

  type Document = seq<Table>

  /** Every value cell of a table, in document order. */
  function ValueCells(t: Table): seq<Element> {
    if t == [] then [] else t[0].values + ValueCells(t[1..])
  }
}
