/** `create_sankey`: per-row link colours from the series tags and one
    diagram frame per value column. The diagram objects of the plotting
    library are plain records here. */
module Builder {
  import opened Wrappers
  import opened Tables
  import opened Colors
  import opened Loader

  /** One Sankey trace: node labels and colours, and one link per row. */
  datatype Trace = Trace(
    labels: seq<Cell>,
    nodeColors: seq<string>,
    sources: seq<nat>,
    targets: seq<nat>,
    values: seq<Option<real>>,
    linkColors: seq<string>)

  /** A named snapshot of the diagram for one value column. */
  datatype Frame = Frame(name: string, data: Trace)

  /** The figure: the initially shown trace and the frames. */
  datatype Figure = Figure(data: Trace, frames: seq<Frame>)

  /** Link colour of every row: the series-table colour of its tag, or the
      default translucent grey for an unlisted tag. */
  function LinkColors(series: seq<Cell>): (r: seq<string>)
    ensures |r| == |series|
    ensures forall i :: 0 <= i < |r| ==>
      r[i] == if series[i].Str? && series[i].text in SeriesColors then SeriesColors[series[i].text]
              else DefaultLinkColor
  {
    seq(|series|, i requires 0 <= i < |series| => SeriesColor(series[i]))
  }

  /** Every value column the builder is asked for is a column of the dataset. */
  predicate HasValueColumns(ds: Dataset, valueColumns: seq<string>)
  {
    forall c :: c in valueColumns ==> c in ds.values
  }

  /** The trace for one value column, with the given link colours. */
  function TraceFor(ds: Dataset, nodes: seq<Cell>, nodeColors: seq<string>, col: string,
                    linkColors: seq<string>): Trace
    requires col in ds.values
  {
    Trace(nodes, nodeColors, ds.sourceIndex, ds.targetIndex, ds.values[col], linkColors)
  }

  /** The frame named after one value column. */
  function FrameFor(ds: Dataset, nodes: seq<Cell>, nodeColors: seq<string>, col: string): Frame
    requires col in ds.values
  {
    Frame(col, TraceFor(ds, nodes, nodeColors, col, LinkColors(ds.series)))
  }

  /** What `create_sankey` returns: nothing when there is no value column,
      otherwise one frame per value column, in column order, named after
      it and carrying its values with the same nodes, node colours and link
      ends; the initial trace is that of the first value column. */
  function Sankey(ds: Dataset, nodes: seq<Cell>, nodeColors: seq<string>, valueColumns: seq<string>)
    : (fig: Option<Figure>)
    requires HasValueColumns(ds, valueColumns)
    ensures fig.None? <==> valueColumns == []
    ensures fig.Some? ==>
      && |fig.value.frames| == |valueColumns|
      && fig.value.data == fig.value.frames[0].data
      && forall k :: 0 <= k < |valueColumns| ==>
           var f := fig.value.frames[k];
           && f.name == valueColumns[k]
           && f.data.values == ds.values[valueColumns[k]]
           && f.data.labels == nodes && f.data.nodeColors == nodeColors
           && f.data.sources == ds.sourceIndex && f.data.targets == ds.targetIndex
           && f.data.linkColors == LinkColors(ds.series)
  {
    if valueColumns == [] then None
    else
      var frames := seq(|valueColumns|, k requires 0 <= k < |valueColumns| =>
                          FrameFor(ds, nodes, nodeColors, valueColumns[k]));
      var initial := valueColumns[0];
      Some(Figure(TraceFor(ds, nodes, nodeColors, initial, LinkColors(ds.series)), frames))
  }

  /** The per-row loop `for _, row in dataset.iterrows()` for one column. */
  method RowLinkColors(series: seq<Cell>) returns (linkColors: seq<string>)
    ensures linkColors == LinkColors(series)
  {
    linkColors := [];
    for i := 0 to |series|
      invariant linkColors == LinkColors(series[..i])
    {
      assert series[..i + 1] == series[..i] + [series[i]];
      linkColors := linkColors + [SeriesColor(series[i])];
    }
    assert series[..|series|] == series;
  }

  /** The statements of `create_sankey`: the link-colour table keyed by
      value column, the frame list, the empty check, then the figure. The
      last two parameters are passed by the caller and not used. */
  method CreateSankey(ds: Dataset, nodes: seq<Cell>, nodeColors: seq<string>, valueColumns: seq<string>,
                      finalCategories: seq<string>, finalCatColors: map<string, string>)
    returns (fig: Option<Figure>)
    requires HasValueColumns(ds, valueColumns)
    ensures fig == Sankey(ds, nodes, nodeColors, valueColumns)
  {
    var linkColorsFrames: map<string, seq<string>> := map[];
    for k := 0 to |valueColumns|
      invariant forall c :: c in linkColorsFrames <==> c in valueColumns[..k]
      invariant forall c :: c in linkColorsFrames ==> linkColorsFrames[c] == LinkColors(ds.series)
    {
      var linkColors := RowLinkColors(ds.series);
      assert valueColumns[..k + 1] == valueColumns[..k] + [valueColumns[k]];
      linkColorsFrames := linkColorsFrames[valueColumns[k] := linkColors];
    }
    assert valueColumns[..|valueColumns|] == valueColumns;

    var frames: seq<Frame> := [];
    for k := 0 to |valueColumns|
      invariant |frames| == k
      invariant forall j :: 0 <= j < k ==> frames[j] == FrameFor(ds, nodes, nodeColors, valueColumns[j])
    {
      var col := valueColumns[k];
      frames := frames + [Frame(col, TraceFor(ds, nodes, nodeColors, col, linkColorsFrames[col]))];
    }

    if valueColumns == [] {
      return None;
    }
    assert frames == Sankey(ds, nodes, nodeColors, valueColumns).value.frames;
    var initial := valueColumns[0];
    fig := Some(Figure(TraceFor(ds, nodes, nodeColors, initial, linkColorsFrames[initial]), frames));
  }

  /* Properties of the builder */

  /** Every frame carries the same link-colour list. */
  lemma LinkColorsSameInEveryFrame(ds: Dataset, nodes: seq<Cell>, nodeColors: seq<string>,
                                   valueColumns: seq<string>, j: nat, k: nat)
    requires HasValueColumns(ds, valueColumns)
    requires j < |valueColumns| && k < |valueColumns|
    ensures var fig := Sankey(ds, nodes, nodeColors, valueColumns).value;
      fig.frames[j].data.linkColors == fig.frames[k].data.linkColors
  {
  }

  /** On a loaded sheet the builder finds every value column it asks for. */
  lemma LoadFeedsBuild(t: Table, parse: string -> Option<real>)
    requires WellFormed(t) && Load(t, parse).Success?
    ensures var l := Load(t, parse).value;
      HasValueColumns(l.dataset, l.valueColumns)
  {
    LoadScalesValues(t, parse);
  }

  /** On a loaded sheet the builder returns nothing exactly when the sheet
      has no column named "value...". */
  lemma LoadThenBuildNone(t: Table, parse: string -> Option<real>)
    requires WellFormed(t) && Load(t, parse).Success?
    ensures var l := Load(t, parse).value;
      && HasValueColumns(l.dataset, l.valueColumns)
      && (Sankey(l.dataset, l.nodeOrder, l.nodeColors, l.valueColumns).None? <==>
            forall c :: c in t.columns ==> !StartsWith(c, ValuePrefix))
  {
    LoadFeedsBuild(t, parse);
    LoadValueColumns(t, parse);
    var cols := Load(t, parse).value.valueColumns;
    if cols != [] {
      assert cols[0] in t.columns && StartsWith(cols[0], ValuePrefix);
    }
  }

  /** Without a `series` column every link of every frame gets the default
      link colour. */
  lemma NoSeriesDefaultLinks(t: Table, parse: string -> Option<real>)
    requires WellFormed(t) && Load(t, parse).Success? && "series" !in t.columns
    ensures var l := Load(t, parse).value;
      && HasValueColumns(l.dataset, l.valueColumns)
      && forall k, i :: 0 <= k < |l.valueColumns| && 0 <= i < |l.dataset.series| ==>
           Sankey(l.dataset, l.nodeOrder, l.nodeColors, l.valueColumns).value.frames[k].data.linkColors[i]
             == DefaultLinkColor
  {
    LoadFeedsBuild(t, parse);
    LoadKeepsRows(t, parse);
    UnknownSeriesIsDefault();
    var l := Load(t, parse).value;
    var colors := LinkColors(l.dataset.series);
    forall i | 0 <= i < |l.dataset.series| ensures colors[i] == DefaultLinkColor {
      assert l.dataset.series[i] == Str(DefaultSeries);
      assert colors[i] == SeriesColor(l.dataset.series[i]);
    }
  }
}
