/** The result table of `queryDB` (index.mjs lines 45-64): a header row with
    one `th` cell per schema field, then one row of `td` cells per result
    row. The DOM is abstracted to a sequence of rows of cells. */
module ResultTable {

  /** A `th` cell of the header row or a `td` cell of a body row, with its
      text. */
  datatype Cell = HeaderCell(text: string) | DataCell(text: string)

  /** One `[col, val]` pair a result row yields when iterated; the value is
      taken as already converted to its text. */
  datatype Entry = Entry(column: string, value: string)

  /** The header row: the field names in schema order. */
  function HeaderRow(fields: seq<string>): (r: seq<Cell>)
    ensures |r| == |fields|
    ensures forall c :: 0 <= c < |fields| ==> r[c] == HeaderCell(fields[c])
  {
    if fields == [] then [] else [HeaderCell(fields[0])] + HeaderRow(fields[1..])
  }

  /** A body row: the values of the row's entries in order; the column
      name of an entry is not shown. */
  function DataRow(entries: seq<Entry>): (r: seq<Cell>)
    ensures |r| == |entries|
    ensures forall c :: 0 <= c < |entries| ==> r[c] == DataCell(entries[c].value)
  {
    if entries == [] then [] else [DataCell(entries[0].value)] + DataRow(entries[1..])
  }

  /** The body rows, one per result row in iteration order. */
  function DataRows(rows: seq<seq<Entry>>): (r: seq<seq<Cell>>)
    ensures |r| == |rows|
    ensures forall k :: 0 <= k < |rows| ==> r[k] == DataRow(rows[k])
  {
    if rows == [] then [] else [DataRow(rows[0])] + DataRows(rows[1..])
  }

  /** The table for a result with schema `fields` and rows `rows`. */
  function Tabulate(fields: seq<string>, rows: seq<seq<Entry>>): (t: seq<seq<Cell>>)
    ensures |t| == 1 + |rows|
    ensures |t[0]| == |fields|
    ensures forall c :: 0 <= c < |fields| ==> t[0][c] == HeaderCell(fields[c])
    ensures forall k :: 0 <= k < |rows| ==> |t[k + 1]| == |rows[k]|
    ensures forall k, c :: 0 <= k < |rows| && 0 <= c < |rows[k]| ==> t[k + 1][c] == DataCell(rows[k][c].value)
  {
    [HeaderRow(fields)] + DataRows(rows)
  }

  /** An empty result still gives a table: the header row and no body
      rows. */
  lemma EmptyResultHeaderOnly(fields: seq<string>)
    ensures Tabulate(fields, []) == [HeaderRow(fields)]
  {
  }

  /** Only the header row holds `th` cells and only the body rows hold
      `td` cells. */
  lemma HeaderAndBodyCells(fields: seq<string>, rows: seq<seq<Entry>>)
    ensures forall c :: 0 <= c < |Tabulate(fields, rows)[0]| ==> Tabulate(fields, rows)[0][c].HeaderCell?
    ensures forall k, c :: 1 <= k < |Tabulate(fields, rows)| && 0 <= c < |Tabulate(fields, rows)[k]|
              ==> Tabulate(fields, rows)[k][c].DataCell?
  {
  }

  /** The loops of lines 47-64: the header cells are appended one by one,
      the header row is appended to the table, and each result row becomes
      a row of cells appended after it. */
  method BuildTable(fields: seq<string>, rows: seq<seq<Entry>>) returns (table: seq<seq<Cell>>)
    ensures table == Tabulate(fields, rows)
  {
    var header: seq<Cell> := [];
    for i := 0 to |fields|
      invariant header == HeaderRow(fields[..i])
    {
      assert fields[..i + 1] == fields[..i] + [fields[i]];
      header := header + [HeaderCell(fields[i])];
    }
    assert fields[..|fields|] == fields;
    table := [header];
    for k := 0 to |rows|
      invariant table == Tabulate(fields, rows[..k])
    {
      var row: seq<Cell> := [];
      for c := 0 to |rows[k]|
        invariant row == DataRow(rows[k][..c])
      {
        assert rows[k][..c + 1] == rows[k][..c] + [rows[k][c]];
        row := row + [DataCell(rows[k][c].value)];
      }
      assert rows[k][..|rows[k]|] == rows[k];
      assert rows[..k + 1] == rows[..k] + [rows[k]];
      table := table + [row];
    }
    assert rows[..|rows|] == rows;
  }
}
