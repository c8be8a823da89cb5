/** The spreadsheet as the reader hands it over: a header of column names
    and the rows under it, one cell per column. */
module Tables {
  import opened Seqs

  /** One cell: text, a number (integer or float), or an empty cell. */
  datatype Cell = Str(text: string) | Num(number: real) | Missing

  datatype Table = Table(columns: seq<string>, rows: seq<seq<Cell>>)

  /** What every parsed sheet satisfies: column names are unique (the reader
      renames repeated headers) and every row has one cell per column. */
  predicate WellFormed(t: Table)
  {
    && Distinct(t.columns)
    && forall i :: 0 <= i < |t.rows| ==> |t.rows[i]| == |t.columns|
  }

  /** The cells of the named column, top to bottom (`dataset[name]`). */
  function Column(t: Table, name: string): (c: seq<Cell>)
    requires WellFormed(t) && name in t.columns
    ensures |c| == |t.rows|
    ensures forall i :: 0 <= i < |c| ==> c[i] == t.rows[i][IndexOf(t.columns, name)]
  {
    var k := IndexOf(t.columns, name);
    seq(|t.rows|, i requires 0 <= i < |t.rows| => t.rows[i][k])
  }

  /** Every row but the first, in order (`dataset[1:]`); an empty table stays empty. */
  function DropFirst(rows: seq<seq<Cell>>): (r: seq<seq<Cell>>)
    ensures |r| == if rows == [] then 0 else |rows| - 1
    ensures forall i :: 0 <= i < |r| ==> r[i] == rows[i + 1]
  {
    if rows == [] then [] else rows[1..]
  }
}
