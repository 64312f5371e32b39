/** `generateChartData` of src/components/ChartBuilder.jsx: the category series drawn by the
    bar, line, pie and scatter charts, and the dispatch on the chart type that also reaches the
    word cloud and the distribution. Colours and other styling are not modelled. */
module ChartData {
  import opened Wrappers
  import opened JsNumber
  import opened JsArray
  import opened Records
  import opened ChartConfig
  import opened WordCloud
  import opened Distribution

  /** Only the first 100 rows are drawn as points. */
  const PointLimit: nat := 100

  /** One series over a category axis: `labels`, and `datasets[0]` with its `label` and
      `data`. */
  datatype Series = Series(labels: seq<string>, title: string, values: seq<real>)

  /** What `generateChartData` returns when it returns something. */
  datatype ChartData =
    | Cloud(words: seq<(string, nat)>)
    | Bins(histogram: Histogram, title: string)
    | Points(series: Series)

  /** `` `Row ${index + 1}` ``: the label of a row with an empty category cell. */
  function RowLabel(i: nat): string {
    "Row " + NatToString(i + 1)
  }

  /** `row[x] || `Row ${i + 1}``. */
  function PointLabel(row: Row, x: string, i: nat): string {
    var c := CellText(row, x);
    if c != "" then c else RowLabel(i)
  }

  /** `parseFloat(row[y]) || 0`. */
  function PointValue(row: Row, y: string): real {
    ParseFloat(CellText(row, y)).GetOr(0.0)
  }

  /** The default branch: `None` (`null`) unless both axes are bound; otherwise one point per
      row of the first 100, labelled by its category cell, or by its 1-based row number when
      that cell is empty, and worth the number its value cell starts with, or 0. */
  function CategorySeries(data: seq<Row>, axes: Axes): (r: Option<Series>)
    ensures r.None? <==> axes.xAxis == "" || axes.yAxis == ""
    ensures r.Some? ==> var n := |Take(data, PointLimit)|;
      && |r.value.labels| == n && |r.value.values| == n && r.value.title == axes.yAxis
      && (forall i :: 0 <= i < n && CellText(data[i], axes.xAxis) != "" ==>
            r.value.labels[i] == CellText(data[i], axes.xAxis))
      && (forall i :: 0 <= i < n && CellText(data[i], axes.xAxis) == "" ==> r.value.labels[i] == RowLabel(i))
      && (forall i :: 0 <= i < n ==>
            r.value.values[i] == match ParseFloat(CellText(data[i], axes.yAxis)) case Some(v) => v case None => 0.0)
  {
    if axes.xAxis == "" || axes.yAxis == "" then None
    else
      var rows := Take(data, PointLimit);
      Some(Series(seq(|rows|, i requires 0 <= i < |rows| => PointLabel(rows[i], axes.xAxis, i)),
                  axes.yAxis,
                  seq(|rows|, i requires 0 <= i < |rows| => PointValue(rows[i], axes.yAxis))))
  }

  /** The synthetic label of row `i` ends with the decimal digits of `i + 1`. */
  lemma RowLabelNumber(i: nat)
    ensures |RowLabel(i)| > 4 && RowLabel(i)[..4] == "Row "
    ensures ParseFloat(RowLabel(i)[4..]) == Some((i + 1) as real)
  {
    assert RowLabel(i)[4..] == NatToString(i + 1);
    ParseFloatOfNatToString(i + 1);
  }

  /** Two rows never get the same synthetic label. */
  lemma RowLabelInjective(i: nat, j: nat)
    requires RowLabel(i) == RowLabel(j)
    ensures i == j
  {
    RowLabelNumber(i);
    RowLabelNumber(j);
  }

  /** Rows past the hundredth never influence the series. */
  lemma SeriesIgnoresLaterRows(data: seq<Row>, more: seq<Row>, axes: Axes)
    requires |data| >= PointLimit
    ensures CategorySeries(data + more, axes) == CategorySeries(data, axes)
  {
    assert Take(data + more, PointLimit) == Take(data, PointLimit);
  }

  /** The chart type's bindings leave nothing to draw: the branch returns `null`. */
  predicate Unbound(c: Configs, t: ChartType) {
    match t
    case WordCloud => c.textColumn == ""
    case Distribution => c.column == ""
    case _ => AxesOf(c, t).xAxis == "" || AxesOf(c, t).yAxis == ""
  }

  /** `generateChartData(type)`: the word list for the word cloud, the histogram for the
      distribution, the category series for the other four types; `None` exactly when the
      type's bindings are unset. */
  function GenerateChartData(data: seq<Row>, c: Configs, t: ChartType): (r: Option<ChartData>)
    ensures r.None? <==> Unbound(c, t)
    ensures r.Some? ==> (r.value.Cloud? <==> t == WordCloud) && (r.value.Bins? <==> t == Distribution)
  {
    match t
    case WordCloud =>
      (match WordFrequencies(data, c.textColumn)
       case None => None
       case Some(words) => Some(Cloud(words)))
    case Distribution =>
      (match DistributionOf(data, c.column)
       case None => None
       case Some(h) => Some(Bins(h, c.column + " Distribution")))
    case _ =>
      (match CategorySeries(data, AxesOf(c, t))
       case None => None
       case Some(s) => Some(Points(s)))
  }

  /** With the defaults installed for a dataset whose columns all have non-empty names, every
      chart type has something to draw. */
  lemma DefaultsDraw(data: seq<Row>, p: Profile, t: ChartType)
    requires Consistent(p) && |p.columns| > 0
    requires forall i :: 0 <= i < |p.columns| ==> p.columns[i] != ""
    ensures GenerateChartData(data, DefaultConfigs(p), t).Some?
  {
    assert p.columns[0] != "";
  }
}
