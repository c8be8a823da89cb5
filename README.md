# Sankey loader and builder, modelled in Dafny

This project models the data-to-diagram core of a small Sankey-diagram app
(`dddd.py`). It has two stages.

- **Loader** (`load_data`, from the point where the spreadsheet is already
  parsed). It checks the schema, drops the first data row and supplies a
  default `series` column. It picks the `value...` columns, coerces their cells
  to numbers and scales them by 10000. It builds a node order without repeats,
  with the known categories first. It maps every row's source and target names
  to indices and looks up node colours.
- **Builder** (`create_sankey`). It computes one link colour per row from the
  row's series tag. It builds one frame per value column and returns nothing
  when there is no value column.

The parsed sheet is `Tables.Table`: a list of unique column names and a list of
rows with one `Cell` per column. A cell is text, a number or missing. The loaded
DataFrame is `Loader.Dataset`, kept column by column: source, target, series,
one scaled column per value column, and the two index columns. The plotting
library's frame and figure objects are plain records (`Builder.Trace`,
`Builder.Frame`, `Builder.Figure`).

Both colour tables are constants in `Colors`, with their literals exactly as
written. The series table spells aluminium `"Al"` and the category table spells
it `"AL"`, and `Colors.AluminiumSpelling` states what follows from that. The
`"PP"` colour is `rgba(258,210,86,0.8)`, whose red component is above 255. The
model keeps that string unchanged, and no contract depends on it.

Each stage has two forms. One is a specification function: `Loader.Load` and
`Builder.Sankey`. The other is a method that follows the source's statements and
loops: `Loader.LoadData`, `Loader.ScaleValueColumns`, `Builder.CreateSankey`
and `Builder.RowLinkColors`. Each method is proved equal to its function. The
lemmas then state the source's promises about the functions.

Two remarks on the code:

- A source or target name without an index would make `.map(node_map)` give
  NaN. `Loader.NodeOrderOf` covers every source and target name, and
  `Loader.LoadIndices` proves every index points back at its name, so this
  cannot happen.
- `create_sankey` builds the frame list before it checks for zero value
  columns. With no value columns that list is empty, so the result is the
  same as checking first.

## Model

| member | source | states |
|---|---|---|
| `Colors.KnownCategoriesAreTableKeys` | dddd.py:15-22 | The known-category list `[Fe, PP, HIPS, PE, AL, ABS]` holds exactly the category table's keys, each once. |
| `Colors.AluminiumSpelling` | dddd.py:20-31 | Series tag "AL" gets the default link colour while node "AL" gets its category colour, and the reverse for "Al". |
| `Colors.Lookup` | dddd.py:70 | `dict.get` with a default: a text cell that is a key gets that key's colour; any other cell gets the default. |
| `Colors.UnknownSeriesIsDefault` | dddd.py:83 | The default series tag "Unknown" is not in the series table, so it gets the default link colour. |
| `Colors.CategoryColor` | dddd.py:70 | A node that is a key of the category table gets that key's colour; any other node gets "rgba(127,127,127,0.8)". |
| `Colors.SeriesColor` | dddd.py:83 | A series tag that is a key of the series table gets that key's colour; any other tag gets "rgba(200,200,200,0.5)". |
| `Tables.DropFirst` | dddd.py:47 | Keeps every row but the first, in order. An empty sheet stays empty. |
| `Tables.Column` | dddd.py:56-67 | `dataset[name]` has one cell per row, and row i's cell is the entry of row i under that column name. |
| `Seqs.Filter` | dddd.py:52 | A list comprehension with a condition keeps exactly the elements that satisfy it, as a set: how often an element is kept is not stated. Every list filtered here (the header, the known categories, the unique nodes) has no repeats, so membership and order fix the result. |
| `Seqs.FilterInOrder` | dddd.py:61-62 | Filtering a list without repeats keeps the order of the elements it keeps. |
| `NodeOrder.FirstOccurrences` | dddd.py:58 | `pd.unique` returns each scanned name once and nothing else. |
| `NodeOrder.FirstOccurrencesInOrder` | dddd.py:58 | `pd.unique` lists the names in the order the scan first meets them. |
| `NodeOrder.KnownPresent` | dddd.py:61 | `reordered_final` holds exactly the known categories that occur among the nodes. |
| `NodeOrder.OtherNodes` | dddd.py:62 | `other_nodes` holds exactly the nodes that are not known categories. |
| `NodeOrder.KnownFirstOrder` | dddd.py:61-63 | The final order has no repeats and holds exactly the nodes. The first k entries are the known categories present, in the known list's order. The rest are the other nodes, in node order. This is the promise of `NodeOrder.KnownFirst`, `reordered_final + other_nodes`. |
| `NodeOrder.KnownFirstOfScan` | dddd.py:58-63 | The same facts for known-first applied to `pd.unique` of a scan. The other nodes come in first-seen order of the scan. |
| `NodeOrder.NodeMap` | dddd.py:65 | The `node_map` dict has exactly the ordered names as keys, and each key maps to a position that holds that name. |
| `NodeOrder.NodeMapInverts` | dddd.py:65 | On an order without repeats, `node_map[order[i]] == i`. |
| `Loader.Load` | dddd.py:44-45 | Loading fails exactly when `source` or `target` is missing, and the error carries the schema message. |
| `Loader.Body` | dddd.py:47 | `dataset[1:]` keeps the header and every row but the first, and stays rectangular with unique column names. |
| `Loader.WithSeries` | dddd.py:49-50 | After the default step the header contains `series`. A header that already has `series` is unchanged; otherwise the old columns stay in place and at most one column is appended. A header without repeats stays without repeats. |
| `Loader.SeriesOf` | dddd.py:49-50 | The series column has one entry per kept row: the row's own `series` cell when the column exists, otherwise "Unknown". |
| `Loader.StartsWithIsPrefix` | dddd.py:52 | `StartsWith(s, p)`, the model of `str.startswith`, holds exactly when `s` is `p` followed by some rest. |
| `Loader.ValueColumns` | dddd.py:52 | The comprehension keeps at most the columns it scans, and keeps exactly those whose name starts with "value". |
| `Loader.Coerce` | dddd.py:56 | `pd.to_numeric(..., errors='coerce')` on one cell: a number stays as it is, text gives what the parser gives, and the result is missing exactly for an empty cell or text that does not parse. |
| `Loader.LoadData` | dddd.py:44-72 | The statement-by-statement loader returns what `Load` specifies. |
| `Loader.ScaleValueColumns` | dddd.py:54-56 | The `for col` loop ends with every value column replaced by its scaled cells. |
| `Loader.ScaleCell` | dddd.py:56 | A cell becomes missing exactly when numeric coercion fails, and otherwise becomes 10000 times its number. |
| `Loader.ScaleColumn` | dddd.py:56 | A coerced column has as many entries as the column had cells, so nothing is dropped. |
| `Loader.SeriesAddsNoValueColumn` | dddd.py:49-52 | Adding `series` before value-column detection adds no value column. |
| `Loader.ValueColumnsExact` | dddd.py:52 | The value columns are exactly the columns whose names start with "value", each once, in left-to-right order. |
| `Loader.LoadValueColumns` | dddd.py:52 | The loader's value columns are exactly the sheet's "value..." columns, in order, with no repeats. There may be none. |
| `Loader.LoadKeepsRows` | dddd.py:47-50 | Every output column has one entry per input row after the first, in order. The source, target and series entries come from those rows. Without a `series` column every series entry is "Unknown". |
| `Loader.ScaledColumnsFacts` | dddd.py:54-56 | `Loader.ScaledColumns`, the columns after the `for col` loop: its keys are exactly the value columns, each has one entry per row, and row i's entry is `ScaleCell` of that row's cell under the column. |
| `Loader.LoadScalesValues` | dddd.py:54-56 | Every value column is kept. Each has one entry per kept row, and row i's entry is the scaled reading of that row's cell. |
| `Loader.NodeOrderOf` | dddd.py:58-63 | The node order holds exactly the names that occur as a source or a target. |
| `Loader.NodeOrderOfFacts` | dddd.py:58-63 | The node order has no repeats. Known categories come before all other nodes and follow the table's order. The others follow the first-seen order of the scan of all sources, then all targets. |
| `Loader.LoadNodeOrder` | dddd.py:58-63 | The loaded node order has no repeats and equals, as a set, the source and target names. Known categories come first, in table order, and the rest follow in first-seen order. |
| `Loader.NamesAreMapKeys` | dddd.py:65-67 | Every source and target name is a key of `node_map`, so `.map(node_map)` never meets a missing key. |
| `Loader.Indices` | dddd.py:66-67 | `.map(node_map)` gives one index per name, so no row is dropped or added. `Loader.IndicesPointBack` states what each index is. |
| `Loader.IndicesPointBack` | dddd.py:65-67 | An index looked up in `node_map` is below the order's length, and the order gives back the name at that index. |
| `Loader.DeriveIndices` | dddd.py:65-67 | On the first-row-dropped sheet, every source and target index is below the node count, and the node order at that index is the row's own name. |
| `Loader.LoadIndices` | dddd.py:65-67 | Every row's source and target index is below the node count, and the node order at that index is the row's source or target name. |
| `Loader.NodeColors` | dddd.py:70 | There is one colour per node in the order. `Loader.NodeColorsByCategory` states what each colour is. |
| `Loader.NodeColorsByCategory` | dddd.py:69-70 | Each node's colour is the category table's colour for it, or "rgba(127,127,127,0.8)" when the node is not a key of that table. |
| `Loader.Derive` | dddd.py:54-72 | The returned tuple has the given value columns, one column per value column and no other (scaled as `Loader.LoadScalesValues` states), one colour per node, the category list `[Fe, PP, HIPS, PE, AL, ABS]` and the category table itself. |
| `Loader.LoadNodeColors` | dddd.py:69-70 | There is one node colour per node. Each is the category table's colour, or "rgba(127,127,127,0.8)" when the node is not in the table. |
| `Builder.LinkColors` | dddd.py:79-84 | There is one link colour per row. Each is the series table's colour for the row's tag, or "rgba(200,200,200,0.5)" when the tag is not in the table. |
| `Builder.RowLinkColors` | dddd.py:80-83 | The per-row `iterrows` loop produces exactly `LinkColors` of the series column. |
| `Builder.Sankey` | dddd.py:86-131 | The result is None exactly when there are no value columns. Otherwise there is one frame per value column, in order, named after it, with its values, with the same nodes, node colours, link ends and link colours. The initial trace equals the first frame's trace. This is the promise of `Builder.TraceFor` (the `go.Sankey` trace of dddd.py:90-104) and `Builder.FrameFor` (the `go.Frame` named after its column, dddd.py:88-106), from which `Sankey` builds every frame. |
| `Builder.CreateSankey` | dddd.py:74-138 | The statement-by-statement builder, with its nested loops, returns what `Sankey` specifies. |
| `Builder.LinkColorsSameInEveryFrame` | dddd.py:79-84 | All frames carry the same link-colour list. |
| `Builder.LoadFeedsBuild` | dddd.py:99-102 | Every value column the loader returns is a column of its dataset, so the builder's look-ups succeed. |
| `Builder.LoadThenBuildNone` | dddd.py:109-111 | On a loaded sheet the builder returns None exactly when the sheet has no column whose name starts with "value". |
| `Builder.NoSeriesDefaultLinks` | dddd.py:49-50 | When the sheet has no `series` column, every link in every frame gets the default link colour. |
| `Examples.UniqueExample` | dddd.py:58 | `pd.unique` of the scan B, D, A keeps all three names in scan order. |
| `Examples.KnownPresentExample` | dddd.py:61 | Of the known list [A, B, C], the nodes B, D, A include A and B, in that order. |
| `Examples.OtherNodesExample` | dddd.py:62 | With known list [A, B, C], the only other node among B, D, A is D. |
| `Examples.KnownFirstExample` | dddd.py:61-63 | With known list [A, B, C] and scanned nodes B, D, A, the order is [A, B, D]. |
| `Examples.ScaleExample` | dddd.py:56 | Cells 1, 2.5 and non-numeric "x" become 10000, 25000 and missing. |

## Left out

- Reading the file (`pd.read_excel` and its exception path). The model starts
  from the parsed sheet, with unique column names.
- `Loader.Load`: the header is `seq<string>`, so a non-text header cell is
  excluded. The reader keeps a numeric or date header cell as a number or a
  date, and `col.startswith('value')` at dddd.py:52 then raises, a second
  failure of `load_data` that the model's "fails exactly when `source` or
  `target` is missing" does not cover.
- Numeric parsing of text cells (`pd.to_numeric`). It is the parameter
  `parse: string -> Option<real>`, which answers None when the text is not a
  number.
- Floating point and integer width. Values are exact reals, so the model has
  no rounding in the multiplication by 10000 and no NaN. It also has no
  wrap-around: a value column of whole numbers is 64-bit in pandas, and
  `* scale_factor` at dddd.py:56 silently wraps once a value exceeds about
  9.2e14 (2^63 / 10000), which the model's reals never do.
- NaN or absent node names. A missing cell used as a node name acts as one
  ordinary value that equals itself. Pandas-specific NaN behaviour in `unique`,
  `in` and `map` is not modelled.
- Memory order in `ravel('K')`. The model assumes the scan reads every source
  cell in row order and then every target cell in row order.
- DataFrame columns that the core never reads, such as any columns other than
  source, target, series and the value columns. They are carried along
  unchanged in the source and are not tracked in `Loader.Dataset`.
- Plotting-library objects and styling: `go.Sankey`, `go.Frame`, `go.Figure`,
  node padding, thickness and border, title and font size. Frames and figures
  are plain records.
- Logging (the `basicConfig` setup and the error messages). It is a side
  effect only.
- All of `app.py`: the upload widget, writing the uploaded file to disk, the
  file watcher thread and the session-state reload flag. These are UI glue and
  asynchronous file watching.
- `Loader.Indices`: it requires every name to be a key of the node map, so it
  does not model the NaN that `.map` would give for a missing key. That case is
  proved impossible for the loader's own node map.
