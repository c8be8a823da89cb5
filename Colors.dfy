/** The two fixed colour tables and the look-ups with a default. */
module Colors {
  import opened Seqs
  import opened Tables

  /** Node colour per known category. */
  const FinalCategoryColors: map<string, string> := map[
    "Fe" := "rgba(111,189,209,0.8)",
    "PP" := "rgba(258,210,86,0.8)",
    "HIPS" := "rgba(23,77,104,0.8)",
    "PE" := "rgba(64,102,86,0.8)",
    "AL" := "rgba(241,151,90,0.8)",
    "ABS" := "rgba(158,73,15,0.8)"
  ]

  /** The keys of the category table in the order the table lists them
      (`list(final_category_colors.keys())`). */
  const KnownCategories: seq<string> := ["Fe", "PP", "HIPS", "PE", "AL", "ABS"]

  /** Link colour per material series. Aluminium is spelt "Al" here and "AL"
      in the category table. */
  const SeriesColors: map<string, string> := map[
    "PP" := "rgba(258,210,86,0.8)",
    "HIPS" := "rgba(0,51,102,0.8)",
    "Fe" := "rgba(63,166,194,0.8)",
    "Al" := "rgba(241,151,90,0.8)",
    "ABS" := "rgba(158,73,15,0.8)",
    "PE" := "rgba(64,102,86,0.8)"
  ]

  const DefaultNodeColor: string := "rgba(127,127,127,0.8)"
  const DefaultLinkColor: string := "rgba(200,200,200,0.5)"

  /** `table.get(key, default)`: only a text cell can match a key of a
      string-keyed table; numbers and empty cells get the default. */
  function Lookup(table: map<string, string>, key: Cell, default: string): (c: string)
    ensures key.Str? && key.text in table ==> c == table[key.text]
    ensures !(key.Str? && key.text in table) ==> c == default
  {
    match key
    case Str(s) => if s in table then table[s] else default
    case _ => default
  }

  /** Colour of a node: its category colour, or the default grey. */
  function CategoryColor(node: Cell): (c: string)
    ensures node.Str? && node.text in FinalCategoryColors ==> c == FinalCategoryColors[node.text]
    ensures !(node.Str? && node.text in FinalCategoryColors) ==> c == DefaultNodeColor
  {
    Lookup(FinalCategoryColors, node, DefaultNodeColor)
  }

  /** Colour of a link from the series tag of its row, or the default
      light grey for a tag outside the series table. */
  function SeriesColor(tag: Cell): (c: string)
    ensures tag.Str? && tag.text in SeriesColors ==> c == SeriesColors[tag.text]
    ensures !(tag.Str? && tag.text in SeriesColors) ==> c == DefaultLinkColor
  {
    Lookup(SeriesColors, tag, DefaultLinkColor)
  }

  /** The known-category list is exactly the category table's key set, without repeats. */
  lemma KnownCategoriesAreTableKeys()
    ensures Distinct(KnownCategories)
    ensures forall name :: name in KnownCategories <==> name in FinalCategoryColors
  {
  }

  /** The spelling mismatch: a series tag "AL" falls back to the default link
      colour while a node "AL" gets its category colour, and a series "Al" is
      coloured while a node "Al" is not. */
  lemma AluminiumSpelling()
    ensures SeriesColor(Str("AL")) == DefaultLinkColor
    ensures CategoryColor(Str("AL")) == "rgba(241,151,90,0.8)"
    ensures SeriesColor(Str("Al")) == "rgba(241,151,90,0.8)"
    ensures CategoryColor(Str("Al")) == DefaultNodeColor
  {
  }

  /** The default series tag "Unknown" is not in the series table. */
  lemma UnknownSeriesIsDefault()
    ensures SeriesColor(Str("Unknown")) == DefaultLinkColor
  {
  }
}
