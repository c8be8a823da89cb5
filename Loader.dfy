/** `load_data` from the parsed sheet on: schema check, first-row drop,
    default series, value-column detection and scaling, node order, index
    columns and node colours. */
module Loader {
  import opened Wrappers
  import opened Seqs
  import opened Tables
  import opened Colors
  import opened NodeOrder

  /** The exception `load_data` raises: the `ValueError` of dddd.py:45. */
  datatype LoadError = ValueError(message: string)

  const SchemaMessage: string := "Dataset must contain 'source' and 'target' columns"
  const ValuePrefix: string := "value"
  const DefaultSeries: string := "Unknown"
  const ScaleFactor: real := 10000.0

  /** The loaded DataFrame, column by column: one entry per kept row in each
      column, and one scaled column per value column. */
  datatype Dataset = Dataset(
    source: seq<Cell>,
    target: seq<Cell>,
    series: seq<Cell>,
    values: map<string, seq<Option<real>>>,
    sourceIndex: seq<nat>,
    targetIndex: seq<nat>)

  /** The six results of `load_data`, in its order. */
  datatype Loaded = Loaded(
    dataset: Dataset,
    nodeOrder: seq<Cell>,
    nodeColors: seq<string>,
    valueColumns: seq<string>,
    finalCategories: seq<string>,
    finalCategoryColors: map<string, string>)

  predicate StartsWith(s: string, prefix: string)
  {
    |prefix| <= |s| && s[..|prefix|] == prefix
  }

  /** `s.startswith(prefix)` holds exactly when `s` is `prefix` followed by
      some rest. */
  lemma StartsWithIsPrefix(s: string, prefix: string)
    ensures StartsWith(s, prefix) <==> exists rest :: s == prefix + rest
  {
    if StartsWith(s, prefix) {
      assert s == prefix + s[|prefix|..];
    }
    forall rest | s == prefix + rest ensures StartsWith(s, prefix) {
      assert s[..|prefix|] == prefix;
    }
  }

  /** A column name that marks a value column. */
  predicate IsValueColumn(name: string)
  {
    StartsWith(name, ValuePrefix)
  }

  /** The columns whose name starts with "value", left to right. */
  function ValueColumns(columns: seq<string>): (r: seq<string>)
    ensures |r| <= |columns|
    ensures forall c :: c in r <==> c in columns && IsValueColumn(c)
  {
    Filter(columns, IsValueColumn)
  }

  /** `pd.to_numeric(..., errors='coerce')` on one cell: a number stays, text
      is handed to `parse` (which answers None when it is not numeric), an
      empty cell is missing. */
  function Coerce(c: Cell, parse: string -> Option<real>): (v: Option<real>)
    ensures v.None? <==> c.Missing? || (c.Str? && parse(c.text).None?)
    ensures c.Num? ==> v == Some(c.number)
    ensures c.Str? && parse(c.text).Some? ==> v == parse(c.text)
  {
    match c
    case Num(x) => Some(x)
    case Str(s) => parse(s)
    case Missing => None
  }

  /** One coerced cell times the scale factor. */
  function ScaleCell(c: Cell, parse: string -> Option<real>): (v: Option<real>)
    ensures v.None? <==> Coerce(c, parse).None?
    ensures Coerce(c, parse).Some? ==> v.value == ScaleFactor * Coerce(c, parse).value
  {
    match Coerce(c, parse)
    case Some(x) => Some(x * ScaleFactor)
    case None => None
  }

  /** A whole column coerced and scaled, cell for cell: nothing is dropped. */
  function ScaleColumn(cells: seq<Cell>, parse: string -> Option<real>): (r: seq<Option<real>>)
    ensures |r| == |cells|
  {
    seq(|cells|, i requires 0 <= i < |cells| => ScaleCell(cells[i], parse))
  }

  /** The scaled column of every listed value column present in `body`. */
  function ScaledColumns(body: Table, cols: seq<string>, parse: string -> Option<real>): map<string, seq<Option<real>>>
    requires WellFormed(body) && forall c :: c in cols ==> c in body.columns
  {
    map c | c in cols :: ScaleColumn(Column(body, c), parse)
  }

  /** The node order of `final_node_order`: known categories first, then the
      other node names in the order `pd.unique` meets them, which is taken to
      be every source cell in row order and then every target cell. */
  function NodeOrderOf(source: seq<Cell>, target: seq<Cell>): (order: seq<Cell>)
    ensures forall x :: x in order <==> x in source || x in target
  {
    KnownFirst(KnownNodes(), FirstOccurrences(source + target))
  }

  /** The known categories as node names. */
  function KnownNodes(): (r: seq<Cell>)
    ensures |r| == |KnownCategories|
    ensures forall i :: 0 <= i < |r| ==> r[i] == Str(KnownCategories[i])
  {
    seq(|KnownCategories|, i requires 0 <= i < |KnownCategories| => Str(KnownCategories[i]))
  }

  /** Every source and target name is a key of the node map built on them. */
  lemma NamesAreMapKeys(source: seq<Cell>, target: seq<Cell>)
    ensures var m := NodeMap(NodeOrderOf(source, target));
      && (forall i :: 0 <= i < |source| ==> source[i] in m)
      && (forall i :: 0 <= i < |target| ==> target[i] in m)
  {
  }

  /** `names.map(node_map)` where every name is a key. */
  function Indices(names: seq<Cell>, nodeMap: map<Cell, nat>): (r: seq<nat>)
    requires forall i :: 0 <= i < |names| ==> names[i] in nodeMap
    ensures |r| == |names|
  {
    seq(|names|, i requires 0 <= i < |names| => nodeMap[names[i]])
  }

  /** `[final_category_colors.get(n, default_node_color) for n in order]`. */
  function NodeColors(order: seq<Cell>): (r: seq<string>)
    ensures |r| == |order|
  {
    seq(|order|, i requires 0 <= i < |order| => CategoryColor(order[i]))
  }

  /** Each node's colour is its category colour, or the default grey when the
      node is not a key of the category table. */
  lemma NodeColorsByCategory(order: seq<Cell>)
    ensures var r := NodeColors(order);
      forall i :: 0 <= i < |order| ==>
        r[i] == if order[i].Str? && order[i].text in FinalCategoryColors then FinalCategoryColors[order[i].text]
                else DefaultNodeColor
  {
  }

  /** The sheet without its first row (`dataset[1:].copy()`). */
  function Body(t: Table): (body: Table)
    requires WellFormed(t)
    ensures WellFormed(body) && body.columns == t.columns
    ensures body.rows == DropFirst(t.rows)
  {
    var rows := DropFirst(t.rows);
    Table(t.columns, rows)
  }

  /** The column list once `series` is ensured to exist: the old columns
      stay, in place, and at most the one `series` column is appended. */
  function WithSeries(columns: seq<string>): (r: seq<string>)
    ensures "series" in r
    ensures columns <= r && |r| <= |columns| + 1
    ensures "series" in columns ==> r == columns
    ensures Distinct(columns) ==> Distinct(r)
  {
    if "series" in columns then columns else columns + ["series"]
  }

  /** The series column, or "Unknown" in every row when there is none. */
  function SeriesOf(body: Table): (series: seq<Cell>)
    requires WellFormed(body)
    ensures |series| == |body.rows|
    ensures "series" in body.columns ==>
      forall i :: 0 <= i < |series| ==> series[i] == body.rows[i][IndexOf(body.columns, "series")]
    ensures "series" !in body.columns ==> forall i :: 0 <= i < |series| ==> series[i] == Str(DefaultSeries)
  {
    if "series" in body.columns then Column(body, "series")
    else seq(|body.rows|, _ => Str(DefaultSeries))
  }

  /** The node order and the dataset built on the first-row-dropped sheet. */
  function Derive(body: Table, valueColumns: seq<string>, parse: string -> Option<real>): (r: Loaded)
    requires WellFormed(body) && "source" in body.columns && "target" in body.columns
    requires forall c :: c in valueColumns ==> c in body.columns
    ensures r.valueColumns == valueColumns
    ensures forall c :: c in r.dataset.values <==> c in valueColumns
    ensures |r.nodeColors| == |r.nodeOrder|
    ensures r.finalCategories == KnownCategories && r.finalCategoryColors == FinalCategoryColors
  {
    var source, target := Column(body, "source"), Column(body, "target");
    var order := NodeOrderOf(source, target);
    var nodeMap := NodeMap(order);
    NamesAreMapKeys(source, target);
    var dataset := Dataset(source, target, SeriesOf(body), ScaledColumns(body, valueColumns, parse),
                           Indices(source, nodeMap), Indices(target, nodeMap));
    Loaded(dataset, order, NodeColors(order), valueColumns, KnownCategories, FinalCategoryColors)
  }

  /** `load_data` after the sheet has been read. */
  function Load(t: Table, parse: string -> Option<real>): (r: Result<Loaded, LoadError>)
    requires WellFormed(t)
    ensures r.Failure? <==> "source" !in t.columns || "target" !in t.columns
    ensures r.Failure? ==> r.error == ValueError(SchemaMessage)
  {
    if "source" !in t.columns || "target" !in t.columns then
      Failure(ValueError(SchemaMessage))
    else
      SeriesAddsNoValueColumn(t.columns);
      Success(Derive(Body(t), ValueColumns(WithSeries(t.columns)), parse))
  }

  /** The loop `for col in value_columns: dataset[col] = ...`, replacing each
      value column by its coerced and scaled cells. */
  method ScaleValueColumns(body: Table, valueColumns: seq<string>, parse: string -> Option<real>)
    returns (values: map<string, seq<Option<real>>>)
    requires WellFormed(body) && forall c :: c in valueColumns ==> c in body.columns
    ensures values == ScaledColumns(body, valueColumns, parse)
  {
    values := map[];
    for k := 0 to |valueColumns|
      invariant values == ScaledColumns(body, valueColumns[..k], parse)
    {
      var col := valueColumns[k];
      assert valueColumns[..k + 1] == valueColumns[..k] + [col];
      values := values[col := ScaleColumn(Column(body, col), parse)];
    }
    assert valueColumns[..|valueColumns|] == valueColumns;
  }

  /** The statements of `load_data`, with the in-place scaling loop over the
      value columns. */
  method LoadData(t: Table, parse: string -> Option<real>) returns (r: Result<Loaded, LoadError>)
    requires WellFormed(t)
    ensures r == Load(t, parse)
  {
    if "source" !in t.columns || "target" !in t.columns {
      return Failure(ValueError(SchemaMessage));
    }
    var body := Body(t);
    var columns := body.columns;
    var series: seq<Cell>;
    if "series" !in columns {
      columns := columns + ["series"];
      series := seq(|body.rows|, _ => Str(DefaultSeries));
      assert series == SeriesOf(body);
    } else {
      series := Column(body, "series");
      assert series == SeriesOf(body);
    }
    assert columns == WithSeries(t.columns);
    var valueColumns := ValueColumns(columns);
    SeriesAddsNoValueColumn(t.columns);
    var values := ScaleValueColumns(body, valueColumns, parse);
    var source, target := Column(body, "source"), Column(body, "target");
    var order := NodeOrderOf(source, target);
    var nodeMap := NodeMap(order);
    NamesAreMapKeys(source, target);
    var dataset := Dataset(source, target, series, values, Indices(source, nodeMap), Indices(target, nodeMap));
    r := Success(Loaded(dataset, order, NodeColors(order), valueColumns, KnownCategories, FinalCategoryColors));
    assert r == Success(Derive(body, valueColumns, parse));
  }

  /* Properties of the loader */

  /** Adding the `series` column never adds a value column. */
  lemma SeriesAddsNoValueColumn(columns: seq<string>)
    ensures ValueColumns(WithSeries(columns)) == ValueColumns(columns)
    ensures forall c :: c in ValueColumns(columns) ==> c in columns
  {
    assert !IsValueColumn("series") by { assert "series"[..5][0] == 's'; }
    if "series" !in columns {
      FilterSkipsRejectedLast(columns, "series", IsValueColumn);
    }
  }

  /** Appending an element the filter rejects does not change the filter. */
  lemma {:induction false} FilterSkipsRejectedLast(s: seq<string>, x: string, keep: string -> bool)
    requires !keep(x)
    ensures Filter(s + [x], keep) == Filter(s, keep)
  {
    if s == [] {
      assert Filter([x], keep) == Filter([x][1..], keep);
    } else {
      assert (s + [x])[1..] == s[1..] + [x];
      FilterSkipsRejectedLast(s[1..], x, keep);
    }
  }

  /** The value columns are exactly the columns named "value...", each once,
      in the sheet's left-to-right order; there may be none. */
  lemma ValueColumnsExact(columns: seq<string>)
    requires Distinct(columns)
    ensures forall c :: c in ValueColumns(columns) <==> c in columns && StartsWith(c, ValuePrefix)
    ensures InOrderOf(ValueColumns(columns), columns)
    ensures Distinct(ValueColumns(columns))
  {
    DistinctInOwnOrder(columns);
    FilterInOrder(columns, IsValueColumn, columns);
    InOrderIsDistinct(ValueColumns(columns), columns);
  }

  /** A successful load is the derivation on the first-row-dropped sheet. */
  lemma LoadUnfolds(t: Table, parse: string -> Option<real>)
    requires WellFormed(t) && Load(t, parse).Success?
    ensures "source" in t.columns && "target" in t.columns
    ensures forall c :: c in ValueColumns(t.columns) ==> c in t.columns
    ensures Load(t, parse).value == Derive(Body(t), ValueColumns(t.columns), parse)
  {
    SeriesAddsNoValueColumn(t.columns);
  }

  /** The dataset's row columns: the source, target and series cells of the
      kept rows, and one index per row. */
  lemma DeriveColumns(body: Table, cols: seq<string>, parse: string -> Option<real>)
    requires WellFormed(body) && "source" in body.columns && "target" in body.columns
    requires forall c :: c in cols ==> c in body.columns
    ensures var d := Derive(body, cols, parse).dataset;
      && d.source == Column(body, "source") && d.target == Column(body, "target")
      && d.series == SeriesOf(body)
      && |d.sourceIndex| == |d.targetIndex| == |body.rows|
  {
  }

  /** The output keeps every row but the first, in order; with no `series`
      column every kept row has series "Unknown". */
  lemma LoadKeepsRows(t: Table, parse: string -> Option<real>)
    requires WellFormed(t) && Load(t, parse).Success?
    ensures var d, n := Load(t, parse).value.dataset, if t.rows == [] then 0 else |t.rows| - 1;
      && |d.source| == |d.target| == |d.series| == |d.sourceIndex| == |d.targetIndex| == n
      && (forall i :: 0 <= i < n ==> d.source[i] == t.rows[i + 1][IndexOf(t.columns, "source")])
      && (forall i :: 0 <= i < n ==> d.target[i] == t.rows[i + 1][IndexOf(t.columns, "target")])
      && (forall i :: 0 <= i < n ==>
            d.series[i] == (if "series" in t.columns then t.rows[i + 1][IndexOf(t.columns, "series")]
                            else Str(DefaultSeries)))
  {
    LoadUnfolds(t, parse);
    var body := Body(t);
    DeriveColumns(body, ValueColumns(t.columns), parse);
    var d := Load(t, parse).value.dataset;
    forall i | 0 <= i < |body.rows|
      ensures d.source[i] == t.rows[i + 1][IndexOf(t.columns, "source")]
      ensures d.target[i] == t.rows[i + 1][IndexOf(t.columns, "target")]
      ensures d.series[i] == (if "series" in t.columns then t.rows[i + 1][IndexOf(t.columns, "series")]
                              else Str(DefaultSeries))
    {
      assert body.rows[i] == t.rows[i + 1];
    }
  }

  /** The value columns of the output are exactly the sheet's columns named
      "value...", each once, left to right; there may be none. */
  lemma LoadValueColumns(t: Table, parse: string -> Option<real>)
    requires WellFormed(t) && Load(t, parse).Success?
    ensures var cols := Load(t, parse).value.valueColumns;
      && (forall c :: c in cols <==> c in t.columns && StartsWith(c, ValuePrefix))
      && InOrderOf(cols, t.columns)
      && Distinct(cols)
  {
    LoadUnfolds(t, parse);
    ValueColumnsExact(t.columns);
  }

  /** The scaled columns hold one entry per kept row. */
  lemma ScaledColumnsFacts(body: Table, cols: seq<string>, parse: string -> Option<real>)
    requires WellFormed(body) && forall c :: c in cols ==> c in body.columns
    ensures var values := ScaledColumns(body, cols, parse);
      && (forall c :: c in values <==> c in cols)
      && forall c, i :: c in cols && 0 <= i < |body.rows| ==>
           |values[c]| == |body.rows| && values[c][i] == ScaleCell(body.rows[i][IndexOf(body.columns, c)], parse)
  {
  }

  /** Each value column holds one entry per kept row, and the entry of row
      `i` is the scaled reading of that row's cell (`ScaleCell`: 10000 times
      the number, or None where the cell is not numeric); no row is dropped. */
  lemma LoadScalesValues(t: Table, parse: string -> Option<real>)
    requires WellFormed(t) && Load(t, parse).Success?
    ensures var l := Load(t, parse).value;
      && (forall c :: c in l.valueColumns ==> c in t.columns)
      && (forall c :: c in l.dataset.values <==> c in l.valueColumns)
      && (forall c :: c in l.valueColumns ==> |l.dataset.values[c]| == |DropFirst(t.rows)|)
      && forall c, i :: c in l.valueColumns && 0 <= i < |DropFirst(t.rows)| ==>
           l.dataset.values[c][i] == ScaleCell(t.rows[i + 1][IndexOf(t.columns, c)], parse)
  {
    LoadUnfolds(t, parse);
    var body, cols := Body(t), ValueColumns(t.columns);
    var values := ScaledColumns(body, cols, parse);
    ScaledColumnsFacts(body, cols, parse);
    assert Load(t, parse).value.dataset.values == values;
    assert Load(t, parse).value.valueColumns == cols;
    forall c, i | c in cols && 0 <= i < |body.rows|
      ensures values[c][i] == ScaleCell(t.rows[i + 1][IndexOf(t.columns, c)], parse)
    {
      assert body.rows[i] == t.rows[i + 1];
    }
  }

  /** A node name that is a known category. */
  predicate IsKnown(node: Cell)
  {
    node in KnownNodes()
  }

  /** The ordering facts of `NodeOrderOf`, for any source and target columns. */
  lemma NodeOrderOfFacts(source: seq<Cell>, target: seq<Cell>)
    ensures var order, scan := NodeOrderOf(source, target), source + target;
      && Distinct(order)
      && (forall i, j :: 0 <= i < j < |order| && IsKnown(order[j]) ==> IsKnown(order[i]))
      && (forall i, j :: 0 <= i < j < |order| && IsKnown(order[i]) && IsKnown(order[j]) ==>
            IndexOf(KnownNodes(), order[i]) < IndexOf(KnownNodes(), order[j]))
      && (forall i, j :: 0 <= i < j < |order| && !IsKnown(order[i]) && !IsKnown(order[j]) ==>
            IndexOf(scan, order[i]) < IndexOf(scan, order[j]))
  {
    var known := KnownNodes();
    assert Distinct(known) by {
      KnownCategoriesAreTableKeys();
      forall i, j | 0 <= i < j < |known| ensures known[i] != known[j] {
        assert KnownCategories[i] != KnownCategories[j];
      }
    }
    KnownFirstOfScan(known, source + target);
  }

  /** The node order repeats nothing and holds exactly the source and target
      names; every known category present comes before every other node;
      known categories follow the table's order, the others the order in
      which the scan (all sources, then all targets) first meets them. */
  lemma LoadNodeOrder(t: Table, parse: string -> Option<real>)
    requires WellFormed(t) && Load(t, parse).Success?
    ensures var l := Load(t, parse).value;
      var order, scan := l.nodeOrder, l.dataset.source + l.dataset.target;
      && Distinct(order)
      && (forall x :: x in order <==> x in l.dataset.source || x in l.dataset.target)
      && (forall i, j :: 0 <= i < j < |order| && IsKnown(order[j]) ==> IsKnown(order[i]))
      && (forall i, j :: 0 <= i < j < |order| && IsKnown(order[i]) && IsKnown(order[j]) ==>
            IndexOf(KnownNodes(), order[i]) < IndexOf(KnownNodes(), order[j]))
      && (forall i, j :: 0 <= i < j < |order| && !IsKnown(order[i]) && !IsKnown(order[j]) ==>
            IndexOf(scan, order[i]) < IndexOf(scan, order[j]))
  {
    LoadUnfolds(t, parse);
    var d := Load(t, parse).value.dataset;
    NodeOrderOfFacts(d.source, d.target);
  }

  /** An index obtained through the node map points back at its name. */
  lemma IndicesPointBack(names: seq<Cell>, order: seq<Cell>)
    requires forall i :: 0 <= i < |names| ==> names[i] in order
    ensures var r := Indices(names, NodeMap(order));
      forall i :: 0 <= i < |names| ==> r[i] < |order| && order[r[i]] == names[i]
  {
  }

  /** The indices `Derive` computes point back at the names they index. */
  lemma DeriveIndices(body: Table, cols: seq<string>, parse: string -> Option<real>)
    requires WellFormed(body) && "source" in body.columns && "target" in body.columns
    requires forall c :: c in cols ==> c in body.columns
    ensures var l := Derive(body, cols, parse);
      var d, order := l.dataset, l.nodeOrder;
      && |d.sourceIndex| == |d.source| && |d.targetIndex| == |d.target|
      && (forall i :: 0 <= i < |d.source| ==> d.sourceIndex[i] < |order| && order[d.sourceIndex[i]] == d.source[i])
      && (forall i :: 0 <= i < |d.target| ==> d.targetIndex[i] < |order| && order[d.targetIndex[i]] == d.target[i])
  {
    var source, target := Column(body, "source"), Column(body, "target");
    var order := NodeOrderOf(source, target);
    IndicesPointBack(source, order);
    IndicesPointBack(target, order);
  }

  /** Every row's indices point into the node order at that row's source and
      target names. */
  lemma LoadIndices(t: Table, parse: string -> Option<real>)
    requires WellFormed(t) && Load(t, parse).Success?
    ensures var l := Load(t, parse).value;
      var d, order := l.dataset, l.nodeOrder;
      && |d.sourceIndex| == |d.source| && |d.targetIndex| == |d.target|
      && (forall i :: 0 <= i < |d.source| ==> d.sourceIndex[i] < |order| && order[d.sourceIndex[i]] == d.source[i])
      && (forall i :: 0 <= i < |d.target| ==> d.targetIndex[i] < |order| && order[d.targetIndex[i]] == d.target[i])
  {
    LoadUnfolds(t, parse);
    DeriveIndices(Body(t), ValueColumns(t.columns), parse);
  }

  /** One colour per node: the category colour, or the default grey when the
      node is not a category. */
  lemma LoadNodeColors(t: Table, parse: string -> Option<real>)
    requires WellFormed(t) && Load(t, parse).Success?
    ensures var l := Load(t, parse).value;
      && |l.nodeColors| == |l.nodeOrder|
      && forall i :: 0 <= i < |l.nodeOrder| ==>
           var n := l.nodeOrder[i];
           l.nodeColors[i] == if n.Str? && n.text in FinalCategoryColors then FinalCategoryColors[n.text]
                              else DefaultNodeColor
  {
    LoadUnfolds(t, parse);
  }
}
