/** The configuration state of the chart builder (src/components/ChartBuilder.jsx): which
    columns of the first row look numeric, the default column bindings of every chart type,
    the list of charts switched on, and the edits the column pickers make. */
module ChartConfig {
  import opened Wrappers
  import opened JsNumber
  import opened JsArray
  import opened JsObject
  import opened Records

  datatype ChartType = Bar | Line | Pie | Scatter | WordCloud | Distribution

  /** The column bindings of a chart drawn against two axes. */
  datatype Axes = Axes(xAxis: string, yAxis: string)

  /** `chartConfigs`: axes for the bar, line, pie and scatter charts, `textColumn` for the
      word cloud and `column` for the distribution. */
  datatype Configs = Configs(bar: Axes, line: Axes, pie: Axes, scatter: Axes, textColumn: string, column: string)

  const InitialConfigs: Configs :=
    Configs(Axes("", ""), Axes("", ""), Axes("", ""), Axes("", ""), "", "")

  /** `columns`, `numericColumns` and `textColumns`. */
  datatype Profile = Profile(columns: seq<string>, numeric: seq<string>, text: seq<string>)

  /** `!isNaN(parseFloat(row[key]))` for a string cell. */
  predicate IsNumericCell(row: Row, key: string) {
    ParseFloat(CellText(row, key)).Some?
  }

  /** How the columns are classified, from the first row alone: every key in
      `Object.keys` order, those whose cell parses as a number, and the string cells that do
      not. */
  function ProfileOf(row: Row): Profile {
    var columns := ObjectKeys(row);
    var numeric := Filter(columns, (key: string) => IsNumericCell(row, key));
    var text := Filter(columns, (key: string) => Lookup(row, key).Some? && key !in numeric);
    Profile(columns, numeric, text)
  }

  /** The numeric and text columns are order-preserving sublists of the columns; a column is
      numeric exactly when its first-row cell parses, text exactly when it does not, so every
      column is in exactly one of the two lists. */
  lemma ProfilePartition(row: Row)
    requires DistinctKeys(row)
    ensures var p := ProfileOf(row);
      && IsSubsequence(p.numeric, p.columns) && IsSubsequence(p.text, p.columns)
      && (forall k :: k in p.numeric <==> k in p.columns && IsNumericCell(row, k))
      && (forall k :: k in p.text <==> k in p.columns && !IsNumericCell(row, k))
  {
    var p := ProfileOf(row);
    ObjectKeysOfRow(row);
    forall k | k in p.columns
      ensures Lookup(row, k).Some?
    {
      GetSome(row, k);
    }
  }

  /** `xs[i]`, where `undefined` is as falsy as the empty string. */
  function Nth(xs: seq<string>, i: nat): string {
    if i < |xs| then xs[i] else ""
  }

  /** `a || b` on strings. */
  function Or(a: string, b: string): string {
    if a != "" then a else b
  }

  /** The bindings `setChartConfigs` installs for a dataset with the given profile. */
  function DefaultConfigs(p: Profile): Configs {
    var first := Nth(p.columns, 0);
    var axes := Axes(Or(Nth(p.numeric, 0), Or(first, "")),
                     Or(Nth(p.numeric, 1), Or(Nth(p.numeric, 0), Or(first, ""))));
    Configs(axes, axes,
            Axes(Or(first, ""), Or(Nth(p.numeric, 0), Or(first, ""))),
            axes,
            Or(Nth(p.text, 0), Or(first, "")),
            Or(Nth(p.numeric, 0), Or(first, "")))
  }

  /** The effect of the profiling effect on the configuration: new defaults from the first
      row, or nothing at all for an empty dataset. */
  function OnDataChange(c: Configs, data: seq<Row>): (r: Configs)
    ensures |data| == 0 ==> r == c
    ensures |data| > 0 ==> r == DefaultConfigs(ProfileOf(data[0]))
  {
    if |data| > 0 then DefaultConfigs(ProfileOf(data[0])) else c
  }

  /** A binding is a column of the first row or `""`. */
  predicate BindsColumn(p: Profile, b: string) {
    b == "" || b in p.columns
  }

  /** What profiling guarantees about its lists: the numeric and text columns are columns, and
      the columns have no repeats. */
  predicate Consistent(p: Profile) {
    && (forall k :: k in p.numeric ==> k in p.columns)
    && (forall k :: k in p.text ==> k in p.columns)
    && (forall i, j :: 0 <= i < j < |p.numeric| ==> p.numeric[i] != p.numeric[j])
  }

  lemma ProfileConsistent(row: Row)
    requires DistinctKeys(row)
    ensures Consistent(ProfileOf(row))
  {
    var p := ProfileOf(row);
    ProfilePartition(row);
    ObjectKeysOfRow(row);
    SubsequenceDistinct(p.numeric, p.columns);
  }

  lemma NthBinds(p: Profile, xs: seq<string>, i: nat)
    requires forall k :: k in xs ==> k in p.columns
    ensures BindsColumn(p, Nth(xs, i))
  {
  }

  /** Every default binding names a column or is `""`; the bar, line and scatter charts share
      their defaults; a numeric column named first is preferred for the x axis, the pie's
      value axis and the distribution, and the y axis is numeric when any column is; the pie's
      label axis is the first column; the word cloud reads the first text column when there is
      one; the y axis prefers the second numeric column, then the first; the two axes differ
      when two columns are numeric; with no numeric (text) column the numeric (text) bindings
      fall back to the first column, and with no column at all every binding is `""`. */
  lemma DefaultBindings(p: Profile)
    requires Consistent(p)
    ensures var c := DefaultConfigs(p);
      && c.bar == c.line == c.scatter
      && BindsColumn(p, c.bar.xAxis) && BindsColumn(p, c.bar.yAxis)
      && BindsColumn(p, c.pie.xAxis) && BindsColumn(p, c.pie.yAxis)
      && BindsColumn(p, c.textColumn) && BindsColumn(p, c.column)
      && (|p.numeric| > 0 && p.numeric[0] != "" ==>
            c.bar.xAxis == p.numeric[0] && c.pie.yAxis == p.numeric[0] && c.column == p.numeric[0]
            && c.bar.yAxis in p.numeric)
      && (|p.numeric| > 1 && p.numeric[0] != "" && p.numeric[1] != "" ==> c.bar.xAxis != c.bar.yAxis)
      && (|p.numeric| > 1 && p.numeric[1] != "" ==> c.bar.yAxis == p.numeric[1])
      && (|p.numeric| == 1 && p.numeric[0] != "" ==> c.bar.yAxis == p.numeric[0])
      && (|p.columns| > 0 ==> c.pie.xAxis == p.columns[0])
      && (|p.text| > 0 && p.text[0] != "" ==> c.textColumn == p.text[0])
      && (|p.numeric| == 0 && |p.columns| > 0 ==>
            c.bar.xAxis == c.bar.yAxis == c.pie.yAxis == c.column == p.columns[0])
      && (|p.text| == 0 && |p.columns| > 0 ==> c.textColumn == p.columns[0])
      && (|p.columns| == 0 ==>
            c.bar == c.pie == Axes("", "") && c.textColumn == "" && c.column == "")
  {
    NthBinds(p, p.numeric, 0);
    NthBinds(p, p.numeric, 1);
    NthBinds(p, p.text, 0);
    NthBinds(p, p.columns, 0);
  }

  /** The defaults installed for a dataset bind only its first row's columns. */
  lemma DatasetDefaults(data: seq<Row>)
    requires |data| > 0 && DistinctKeys(data[0])
    ensures var p := ProfileOf(data[0]);
      var c := OnDataChange(InitialConfigs, data);
      && BindsColumn(p, c.bar.xAxis) && BindsColumn(p, c.bar.yAxis)
      && BindsColumn(p, c.pie.xAxis) && BindsColumn(p, c.pie.yAxis)
      && BindsColumn(p, c.textColumn) && BindsColumn(p, c.column)
  {
    ProfileConsistent(data[0]);
    DefaultBindings(ProfileOf(data[0]));
  }

  /** A sublist of a list without repeats has no repeats. */
  lemma {:induction false} SubsequenceDistinct<T>(a: seq<T>, b: seq<T>)
    requires IsSubsequence(a, b)
    requires forall i, j :: 0 <= i < j < |b| ==> b[i] != b[j]
    ensures forall i, j :: 0 <= i < j < |a| ==> a[i] != a[j]
    decreases |b|
  {
    if |a| > 0 && |b| > 0 {
      assert forall i, j :: 0 <= i < j < |b[1..]| ==> b[1..][i] != b[1..][j] by {
        forall i, j | 0 <= i < j < |b[1..]|
          ensures b[1..][i] != b[1..][j]
        {
          assert b[1..][i] == b[i + 1] && b[1..][j] == b[j + 1];
        }
      }
      if a[0] == b[0] && IsSubsequence(a[1..], b[1..]) {
        SubsequenceDistinct(a[1..], b[1..]);
        SubsequenceMembers(a[1..], b[1..]);
        forall j | 0 < j < |a|
          ensures a[0] != a[j]
        {
          assert a[j] == a[1..][j - 1];
          var m :| 0 <= m < |b[1..]| && b[1..][m] == a[j];
          assert b[m + 1] == a[j];
        }
        forall i, j | 0 < i < j < |a|
          ensures a[i] != a[j]
        {
          assert a[i] == a[1..][i - 1] && a[j] == a[1..][j - 1];
        }
      } else {
        SubsequenceDistinct(a, b[1..]);
      }
    }
  }

  /** Every element of a sublist is an element of the list. */
  lemma {:induction false} SubsequenceMembers<T>(a: seq<T>, b: seq<T>)
    requires IsSubsequence(a, b)
    ensures forall i :: 0 <= i < |a| ==> exists m :: 0 <= m < |b| && b[m] == a[i]
    decreases |b|
  {
    if |a| > 0 && |b| > 0 {
      if a[0] == b[0] && IsSubsequence(a[1..], b[1..]) {
        SubsequenceMembers(a[1..], b[1..]);
        forall i | 0 < i < |a|
          ensures exists m :: 0 <= m < |b| && b[m] == a[i]
        {
          assert a[i] == a[1..][i - 1];
          var m :| 0 <= m < |b[1..]| && b[1..][m] == a[i];
          assert b[m + 1] == a[i];
        }
        assert b[0] == a[0];
      } else {
        SubsequenceMembers(a, b[1..]);
        forall i | 0 <= i < |a|
          ensures exists m :: 0 <= m < |b| && b[m] == a[i]
        {
          var m :| 0 <= m < |b[1..]| && b[1..][m] == a[i];
          assert b[m + 1] == a[i];
        }
      }
    }
  }

  /** `list.filter(u => u !== t)`. */
  function Without(s: seq<ChartType>, t: ChartType): (r: seq<ChartType>)
    ensures t !in r
    ensures forall u :: u != t ==> (u in r <==> u in s)
  {
    if |s| == 0 then []
    else if s[0] == t then Without(s[1..], t)
    else [s[0]] + Without(s[1..], t)
  }

  predicate NoDuplicates(s: seq<ChartType>) {
    forall i, j :: 0 <= i < j < |s| ==> s[i] != s[j]
  }

  /** `toggleChart(t)`: a chart that is on is switched off, one that is off is switched on
      and shown last. */
  function Toggle(active: seq<ChartType>, t: ChartType): (r: seq<ChartType>)
    ensures t in r <==> t !in active
    ensures forall u :: u != t ==> (u in r <==> u in active)
    ensures Without(r, t) == Without(active, t)
    ensures t !in active ==> r[|r| - 1] == t
    ensures NoDuplicates(active) ==> NoDuplicates(r)
  {
    if t in active then
      WithoutTwice(active, t);
      assert NoDuplicates(active) ==> NoDuplicates(Without(active, t)) by {
        if NoDuplicates(active) {
          WithoutKeepsDistinct(active, t);
        }
      }
      Without(active, t)
    else
      WithoutAppend(active, t);
      WithoutAbsent(active, t);
      active + [t]
  }

  lemma {:induction false} WithoutTwice(s: seq<ChartType>, t: ChartType)
    ensures Without(Without(s, t), t) == Without(s, t)
  {
    if |s| > 0 {
      WithoutTwice(s[1..], t);
      if s[0] != t {
        assert ([s[0]] + Without(s[1..], t))[1..] == Without(s[1..], t);
      }
    }
  }

  lemma {:induction false} WithoutAbsent(s: seq<ChartType>, t: ChartType)
    requires t !in s
    ensures Without(s, t) == s
  {
    if |s| > 0 {
      WithoutAbsent(s[1..], t);
      assert s == [s[0]] + s[1..];
    }
  }

  lemma {:induction false} WithoutAppend(s: seq<ChartType>, t: ChartType)
    ensures Without(s + [t], t) == Without(s, t)
  {
    if |s| == 0 {
      assert s + [t] == [t];
      assert [t][1..] == [];
    } else {
      WithoutAppend(s[1..], t);
      assert (s + [t])[1..] == s[1..] + [t];
    }
  }

  lemma {:induction false} WithoutKeepsDistinct(s: seq<ChartType>, t: ChartType)
    requires NoDuplicates(s)
    ensures NoDuplicates(Without(s, t))
  {
    if |s| > 0 {
      WithoutKeepsDistinct(s[1..], t);
      if s[0] != t {
        var r := Without(s, t);
        assert r == [s[0]] + Without(s[1..], t);
        assert s[0] !in s[1..];
        assert s[0] !in Without(s[1..], t);
        forall i, j | 0 <= i < j < |r|
          ensures r[i] != r[j]
        {
          if i > 0 {
            assert r[i] == Without(s[1..], t)[i - 1];
          }
          assert r[j] == Without(s[1..], t)[j - 1];
        }
      }
    }
  }

  /** Toggling a chart twice brings back the same set of charts. The list itself comes back
      exactly when the chart was off or was shown last; otherwise the chart moves to the end. */
  lemma ToggleTwice(active: seq<ChartType>, t: ChartType)
    requires NoDuplicates(active)
    ensures forall u :: u in Toggle(Toggle(active, t), t) <==> u in active
    ensures t in active ==> Toggle(Toggle(active, t), t) == Without(active, t) + [t]
    ensures Toggle(Toggle(active, t), t) == active <==> t !in active || active[|active| - 1] == t
  {
    var once := Toggle(active, t);
    if t !in active {
      WithoutAppend(active, t);
      assert once == active + [t];
      assert Without(once, t) == active by {
        WithoutAbsent(active, t);
      }
    } else if active[|active| - 1] == t {
      var front := active[..|active| - 1];
      assert active == front + [t];
      assert t !in front;
      WithoutAppend(front, t);
      WithoutAbsent(front, t);
    } else {
      var twice := Toggle(once, t);
      assert twice[|twice| - 1] == t;
    }
  }

  /** The column fields of a chart type's configuration. */
  datatype Field = XAxis | YAxis | TextColumn | Column

  /** `chartConfigs[t][f]`, or `None` when the type has no such field. */
  function Binding(c: Configs, t: ChartType, f: Field): Option<string> {
    match t
    case WordCloud => if f == TextColumn then Some(c.textColumn) else None
    case Distribution => if f == Column then Some(c.column) else None
    case _ =>
      var axes := match t
        case Bar => c.bar
        case Line => c.line
        case Pie => c.pie
        case _ => c.scatter;
      if f == XAxis then Some(axes.xAxis) else if f == YAxis then Some(axes.yAxis) else None
  }

  /** The field the first picker of a chart type edits. */
  function PrimaryField(t: ChartType): Field {
    match t
    case WordCloud => TextColumn
    case Distribution => Column
    case _ => XAxis
  }

  /** Only the bar, line and scatter charts have a second, y-axis picker. */
  predicate HasYPicker(t: ChartType) {
    t != WordCloud && t != Distribution && t != Pie
  }

  function WithAxes(c: Configs, t: ChartType, axes: Axes): Configs {
    match t
    case Bar => c.(bar := axes)
    case Line => c.(line := axes)
    case Pie => c.(pie := axes)
    case Scatter => c.(scatter := axes)
    case _ => c
  }

  function AxesOf(c: Configs, t: ChartType): Axes {
    match t
    case Bar => c.bar
    case Line => c.line
    case Pie => c.pie
    case _ => c.scatter
  }

  /** The first picker's `onChange`: the primary field of chart type `t` becomes `col` and
      every other field of every type keeps its value. */
  function SetPrimary(c: Configs, t: ChartType, col: string): (r: Configs)
    ensures forall u, f ::
      Binding(r, u, f) == (if u == t && f == PrimaryField(t) then Some(col) else Binding(c, u, f))
  {
    match t
    case WordCloud => c.(textColumn := col)
    case Distribution => c.(column := col)
    case _ => WithAxes(c, t, AxesOf(c, t).(xAxis := col))
  }

  /** The y-axis picker's `onChange`: the y axis of chart type `t` becomes `col` and every
      other field of every type keeps its value. */
  function SetY(c: Configs, t: ChartType, col: string): (r: Configs)
    requires HasYPicker(t)
    ensures forall u, f :: Binding(r, u, f) == (if u == t && f == YAxis then Some(col) else Binding(c, u, f))
  {
    WithAxes(c, t, AxesOf(c, t).(yAxis := col))
  }
}
