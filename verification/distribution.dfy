/** The histogram behind the distribution chart (the `distribution` branch of
    `generateChartData` in src/components/ChartBuilder.jsx): the numbers of a column over all
    rows are put into bins of a tenth of their range, keyed in a plain object by the start of
    the bin; the labels are the bin starts in ascending order and the data are the bin counts
    in the object's property order. Arithmetic is exact. */
module Distribution {
  import opened Wrappers
  import opened JsNumber
  import opened JsArray
  import opened JsObject
  import opened Records

  /** A chart label: a bin start, or `NaN`. */
  datatype Label = NaNLabel | At(x: real)

  /** `labels` and `datasets[0].data`. */
  datatype Histogram = Histogram(labels: seq<Label>, counts: seq<nat>)

  predicate Parses(row: Row, col: string) {
    ParseFloat(CellText(row, col)).Some?
  }

  /** `data.map(row => parseFloat(row[col])).filter(v => !isNaN(v))`: one number per row whose
      cell parses, in row order, over all rows. */
  function ColumnValues(data: seq<Row>, col: string): (r: seq<real>)
    ensures var parsed := Filter(data, (row: Row) => Parses(row, col));
      && |r| == |parsed|
      && forall i :: 0 <= i < |r| ==> ParseFloat(CellText(parsed[i], col)) == Some(r[i])
  {
    if |data| == 0 then []
    else
      var rest := ColumnValues(data[1..], col);
      ColumnFilterStep(data, col);
      match ParseFloat(CellText(data[0], col))
      case Some(v) =>
        ColumnValuesCons(data, col, v, rest);
        [v] + rest
      case None => rest
  }

  /** A row whose cell parses puts its number in front of the numbers of the later rows. */
  lemma ColumnValuesCons(data: seq<Row>, col: string, v: real, rest: seq<real>)
    requires |data| > 0 && ParseFloat(CellText(data[0], col)) == Some(v)
    requires var later := Filter(data[1..], (row: Row) => Parses(row, col));
      && |rest| == |later|
      && forall i :: 0 <= i < |rest| ==> ParseFloat(CellText(later[i], col)) == Some(rest[i])
    ensures var parsed := Filter(data, (row: Row) => Parses(row, col));
      && |[v] + rest| == |parsed|
      && forall i :: 0 <= i < |[v] + rest| ==> ParseFloat(CellText(parsed[i], col)) == Some(([v] + rest)[i])
  {
    var p := (row: Row) => Parses(row, col);
    var later := Filter(data[1..], p);
    ColumnFilterStep(data, col);
    assert Filter(data, p) == [data[0]] + later;
    ConsIndex(v, rest);
    ConsIndex(data[0], later);
  }

  lemma ConsIndex<T>(x: T, s: seq<T>)
    ensures ([x] + s)[0] == x
    ensures forall i :: 1 <= i < |s| + 1 ==> ([x] + s)[i] == s[i - 1]
  {
  }

  /** One step of the filter over the rows whose cell parses. */
  lemma ColumnFilterStep(data: seq<Row>, col: string)
    requires |data| > 0
    ensures var p := (row: Row) => Parses(row, col);
      Filter(data, p) == if Parses(data[0], col) then [data[0]] + Filter(data[1..], p) else Filter(data[1..], p)
  {
  }

  /** `Math.min(...values)` for a non-empty list. */
  function Min(s: seq<real>): (m: real)
    requires |s| > 0
    ensures m in s && forall i :: 0 <= i < |s| ==> m <= s[i]
  {
    if |s| == 1 then s[0]
    else
      var rest := Min(s[1..]);
      if s[0] <= rest then s[0] else rest
  }

  /** `Math.max(...values)` for a non-empty list. */
  function Max(s: seq<real>): (m: real)
    requires |s| > 0
    ensures m in s && forall i :: 0 <= i < |s| ==> s[i] <= m
  {
    if |s| == 1 then s[0]
    else
      var rest := Max(s[1..]);
      if s[0] >= rest then s[0] else rest
  }

  /** `Math.floor((v - lo) / step)` with `step = (hi - lo) / 10`. */
  function BinIndex(v: real, lo: real, hi: real): int
    requires lo < hi
  {
    ((v - lo) / ((hi - lo) / 10.0)).Floor
  }

  /** Every value of the range falls in bin 0 to 10; the minimum in bin 0 and only the
      maximum in bin 10, a bin of its own rather than the last of ten. */
  lemma BinIndexRange(v: real, lo: real, hi: real)
    requires lo < hi && lo <= v <= hi
    ensures 0 <= BinIndex(v, lo, hi) <= 10
    ensures v == lo ==> BinIndex(v, lo, hi) == 0
    ensures BinIndex(v, lo, hi) == 10 <==> v == hi
  {
    var step := (hi - lo) / 10.0;
    var q := (v - lo) / step;
    assert q * step == v - lo;
    assert 0.0 <= q;
    assert q <= 10.0;
    assert q == 10.0 <==> v == hi;
    assert v == lo ==> q == 0.0;
  }

  /** `Math.floor((v - lo) / step) * step + lo`: where the bin of `v` starts. */
  function BinStart(v: real, lo: real, hi: real): real
    requires lo < hi
  {
    BinIndex(v, lo, hi) as real * ((hi - lo) / 10.0) + lo
  }

  /** Which bin starts are array indices once converted to property keys: the non-negative
      integers below 2^32 - 1. */
  function RealIndex(x: real): (r: Option<nat>)
    ensures r.Some? ==> r.value as real == x
  {
    if x == x.Floor as real && 0.0 <= x < ArrayIndexLimit as real then Some(x.Floor as nat) else None
  }

  /** The `bins` object after the given values have been counted in order. */
  function Bins(values: seq<real>, lo: real, hi: real): seq<(real, nat)>
    requires lo < hi
  {
    if |values| == 0 then []
    else
      var prev := Bins(values[..|values| - 1], lo, hi);
      var b := BinStart(values[|values| - 1], lo, hi);
      Put(prev, b, Get(prev, b).GetOr(0) + 1)
  }

  /** How many of the values fall in the bin starting at `x`. */
  function BinCount(values: seq<real>, lo: real, hi: real, x: real): nat
    requires lo < hi
  {
    if |values| == 0 then 0
    else BinCount(values[..|values| - 1], lo, hi, x) + (if BinStart(values[|values| - 1], lo, hi) == x then 1 else 0)
  }

  /** The bins object holds one property per occupied bin, with the number of values in it. */
  lemma {:induction false} BinsGet(values: seq<real>, lo: real, hi: real, x: real)
    requires lo < hi
    ensures Get(Bins(values, lo, hi), x) == if BinCount(values, lo, hi, x) > 0 then Some(BinCount(values, lo, hi, x)) else None
  {
    if |values| > 0 {
      var front := values[..|values| - 1];
      var prev := Bins(front, lo, hi);
      var b := BinStart(values[|values| - 1], lo, hi);
      var v := Get(prev, b).GetOr(0) + 1;
      if b == x {
        BinsGet(front, lo, hi, b);
        PutGet(prev, b, v);
      } else {
        BinsGet(front, lo, hi, x);
        PutOthers(prev, b, v, x);
      }
    }
  }

  lemma {:induction false} BinsDistinct(values: seq<real>, lo: real, hi: real)
    requires lo < hi
    ensures DistinctKeys(Bins(values, lo, hi))
  {
    if |values| > 0 {
      var front := values[..|values| - 1];
      var prev := Bins(front, lo, hi);
      var b := BinStart(values[|values| - 1], lo, hi);
      BinsDistinct(front, lo, hi);
      PutDistinct(prev, b, Get(prev, b).GetOr(0) + 1);
    }
  }

  /** Adding one to a count adds one to the total. */
  lemma {:induction false} SumValuesIncrement<K>(o: seq<(K, nat)>, k: K)
    ensures SumValues(Put(o, k, Get(o, k).GetOr(0) + 1)) == SumValues(o) + 1
  {
    if |o| > 0 && o[0].0 != k {
      SumValuesIncrement(o[1..], k);
      assert Put(o, k, Get(o, k).GetOr(0) + 1)[1..] == Put(o[1..], k, Get(o[1..], k).GetOr(0) + 1);
    } else if |o| > 0 {
      assert Put(o, k, Get(o, k).GetOr(0) + 1)[1..] == o[1..];
    }
  }

  /** Every value is counted once. */
  lemma {:induction false} BinsTotal(values: seq<real>, lo: real, hi: real)
    requires lo < hi
    ensures SumValues(Bins(values, lo, hi)) == |values|
  {
    if |values| > 0 {
      var front := values[..|values| - 1];
      BinsTotal(front, lo, hi);
      SumValuesIncrement(Bins(front, lo, hi), BinStart(values[|values| - 1], lo, hi));
    }
  }

  function Identity(x: real): real {
    x
  }

  function ByStart(e: (real, nat)): real {
    e.0
  }

  function Labels(xs: seq<real>): (r: seq<Label>)
    ensures |r| == |xs|
    ensures forall i :: 0 <= i < |xs| ==> r[i] == At(xs[i])
  {
    seq(|xs|, i requires 0 <= i < |xs| => At(xs[i]))
  }

  /** The histogram as the code builds it from the parsed numbers: nothing for no numbers,
      one `NaN` bin holding everything when all numbers are equal (the step is 0), and
      otherwise the bin starts sorted ascending as labels next to the bin counts in property
      order, which puts array-index keys first and the others in creation order. */
  function HistogramAsWritten(values: seq<real>): Histogram {
    if |values| == 0 then Histogram([], [])
    else
      var lo := Min(values);
      var hi := Max(values);
      if lo == hi then Histogram([NaNLabel], [|values|])
      else
        var bins := Bins(values, lo, hi);
        Histogram(Labels(SortBy(KeysOf(bins), Identity)), ValuesOf(OwnOrder(bins, RealIndex)))
  }

  /** The two degenerate cases: no number gives no bin at all, and a histogram is the single
      `NaN` bin exactly when there are numbers and all of them are equal; that bin then holds
      every number. */
  lemma HistogramDegenerate(values: seq<real>)
    ensures |values| == 0 ==> HistogramAsWritten(values) == Histogram([], [])
    ensures HistogramAsWritten(values).labels == [NaNLabel] <==>
      |values| > 0 && forall i :: 0 <= i < |values| ==> values[i] == values[0]
    ensures HistogramAsWritten(values).labels == [NaNLabel] ==>
      HistogramAsWritten(values).counts == [|values|]
  {
    if |values| > 0 {
      MinMaxEqual(values);
      if Min(values) != Max(values) {
        var bins := Bins(values, Min(values), Max(values));
        LabelsNotNaN(SortBy(KeysOf(bins), Identity));
      }
    }
  }

  /** The least and the greatest number agree exactly when all numbers are equal. */
  lemma MinMaxEqual(values: seq<real>)
    requires |values| > 0
    ensures Min(values) == Max(values) <==> forall i :: 0 <= i < |values| ==> values[i] == values[0]
  {
    if Min(values) == Max(values) {
      assert forall i :: 0 <= i < |values| ==> Min(values) <= values[i] <= Max(values);
    }
  }

  lemma LabelsNotNaN(xs: seq<real>)
    ensures Labels(xs) != [NaNLabel]
  {
    if |xs| > 0 {
      assert Labels(xs)[0] == At(xs[0]);
    }
  }

  /** The branch's result: `None` (`null`) when no column is chosen. */
  function DistributionOf(data: seq<Row>, col: string): (r: Option<Histogram>)
    ensures r.None? <==> col == ""
  {
    if col == "" then None else Some(HistogramAsWritten(ColumnValues(data, col)))
  }

  /** As many labels as counts, and the counts add up to the number of rows whose cell
      parses, over all rows. */
  lemma DistributionTotal(data: seq<Row>, col: string)
    requires col != ""
    ensures var h := DistributionOf(data, col).value;
      && |h.labels| == |h.counts|
      && Sum(h.counts) == |Filter(data, (row: Row) => Parses(row, col))|
  {
    HistogramTotal(ColumnValues(data, col));
  }

  lemma HistogramTotal(values: seq<real>)
    ensures |HistogramAsWritten(values).labels| == |HistogramAsWritten(values).counts|
    ensures Sum(HistogramAsWritten(values).counts) == |values|
  {
    if |values| > 0 {
      var lo := Min(values);
      var hi := Max(values);
      if lo == hi {
        assert Sum([|values|]) == |values| + Sum([]);
      } else {
        var bins := Bins(values, lo, hi);
        BinsTotal(values, lo, hi);
        OwnOrderSum(bins, RealIndex);
        SumOfValues(OwnOrder(bins, RealIndex));
      }
    }
  }

  /** What the code does get right: each count is the number of values in one bin and each
      bin is counted once, but the bins are taken in property order (integral non-negative
      starts ascending, then the others in the order their first value was met), not in the
      ascending order of the labels. */
  lemma AsWrittenCounts(values: seq<real>)
    requires |values| > 0 && Min(values) < Max(values)
    ensures var lo := Min(values);
      var hi := Max(values);
      var order := KeysOf(OwnOrder(Bins(values, lo, hi), RealIndex));
      var counts := HistogramAsWritten(values).counts;
      && |order| == |counts|
      && (forall i :: 0 <= i < |counts| ==> counts[i] == BinCount(values, lo, hi, order[i]) >= 1)
      && (forall i, j :: 0 <= i < j < |order| ==> order[i] != order[j])
  {
    var lo := Min(values);
    var hi := Max(values);
    var bins := Bins(values, lo, hi);
    var entries := OwnOrder(bins, RealIndex);
    assert HistogramAsWritten(values).counts == ValuesOf(entries);
    SortedEntriesCount(values, lo, hi, entries);
    BinsDistinct(values, lo, hi);
    PermutationDistinct(bins, entries);
  }

  /** The corrected histogram: the bins sorted by start, so that every count stands next to
      the label of its own bin. */
  function AlignedHistogram(values: seq<real>): Histogram {
    if |values| == 0 then Histogram([], [])
    else
      var lo := Min(values);
      var hi := Max(values);
      if lo == hi then Histogram([NaNLabel], [|values|])
      else
        var sorted := SortBy(Bins(values, lo, hi), ByStart);
        Histogram(Labels(KeysOf(sorted)), ValuesOf(sorted))
  }

  /** In the corrected histogram the labels strictly ascend, every count is the number of
      values in the bin of its label, and the counts add up to the number of values. */
  lemma AlignedCounts(values: seq<real>)
    requires |values| > 0 && Min(values) < Max(values)
    ensures var h := AlignedHistogram(values);
      var lo := Min(values);
      var hi := Max(values);
      && |h.labels| == |h.counts|
      && (forall i, j :: 0 <= i < j < |h.labels| ==> h.labels[i].x < h.labels[j].x)
      && (forall i :: 0 <= i < |h.labels| ==> h.counts[i] == BinCount(values, lo, hi, h.labels[i].x) >= 1)
      && Sum(h.counts) == |values|
  {
    var lo := Min(values);
    var hi := Max(values);
    var sorted := SortBy(Bins(values, lo, hi), ByStart);
    assert AlignedHistogram(values) == Histogram(Labels(KeysOf(sorted)), ValuesOf(sorted));
    BinsTotal(values, lo, hi);
    SumValuesSort(Bins(values, lo, hi), ByStart);
    EntriesHistogram(values, lo, hi, sorted);
  }

  /** The histogram read off the bins in start order. */
  lemma EntriesHistogram(values: seq<real>, lo: real, hi: real, sorted: seq<(real, nat)>)
    requires lo < hi
    requires multiset(sorted) == multiset(Bins(values, lo, hi))
    requires SortedBy(sorted, ByStart)
    requires SumValues(sorted) == |values|
    ensures var h := Histogram(Labels(KeysOf(sorted)), ValuesOf(sorted));
      && |h.labels| == |h.counts|
      && (forall i, j :: 0 <= i < j < |h.labels| ==> h.labels[i].x < h.labels[j].x)
      && (forall i :: 0 <= i < |h.labels| ==> h.counts[i] == BinCount(values, lo, hi, h.labels[i].x) >= 1)
      && Sum(h.counts) == |values|
  {
    var h := Histogram(Labels(KeysOf(sorted)), ValuesOf(sorted));
    assert forall i :: 0 <= i < |sorted| ==> h.labels[i].x == sorted[i].0 && h.counts[i] == sorted[i].1;
    SortedEntriesCount(values, lo, hi, sorted);
    forall i | 0 <= i < |h.labels|
      ensures h.counts[i] == BinCount(values, lo, hi, h.labels[i].x) >= 1
    {
      assert h.counts[i] == sorted[i].1 && h.labels[i].x == sorted[i].0;
    }
    SortedEntriesAscend(values, lo, hi, sorted);
    SumOfValues(sorted);
  }

  /** Any reordering of the bins pairs every start with the number of values in its bin. */
  lemma SortedEntriesCount(values: seq<real>, lo: real, hi: real, sorted: seq<(real, nat)>)
    requires lo < hi
    requires multiset(sorted) == multiset(Bins(values, lo, hi))
    ensures forall i :: 0 <= i < |sorted| ==> sorted[i].1 == BinCount(values, lo, hi, sorted[i].0) >= 1
  {
    var bins := Bins(values, lo, hi);
    BinsDistinct(values, lo, hi);
    forall i | 0 <= i < |sorted|
      ensures sorted[i].1 == BinCount(values, lo, hi, sorted[i].0) >= 1
    {
      assert sorted[i] in multiset(bins);
      var m :| 0 <= m < |bins| && bins[m] == sorted[i];
      GetEntry(bins, m);
      BinsGet(values, lo, hi, sorted[i].0);
    }
  }

  /** Sorted by start, the distinct starts strictly ascend. */
  lemma SortedEntriesAscend(values: seq<real>, lo: real, hi: real, sorted: seq<(real, nat)>)
    requires lo < hi
    requires multiset(sorted) == multiset(Bins(values, lo, hi))
    requires SortedBy(sorted, ByStart)
    ensures forall i, j :: 0 <= i < j < |sorted| ==> sorted[i].0 < sorted[j].0
  {
    BinsDistinct(values, lo, hi);
    PermutationDistinct(Bins(values, lo, hi), sorted);
    forall i, j | 0 <= i < j < |sorted|
      ensures sorted[i].0 < sorted[j].0
    {
      assert ByStart(sorted[i]) <= ByStart(sorted[j]);
      assert KeysOf(sorted)[i] != KeysOf(sorted)[j];
    }
  }

  /** The correction changes only the order of the counts: both histograms have the same
      labels. */
  lemma SameLabels(values: seq<real>)
    ensures AlignedHistogram(values).labels == HistogramAsWritten(values).labels
  {
    if |values| > 0 && Min(values) < Max(values) {
      var bins := Bins(values, Min(values), Max(values));
      var a := SortBy(KeysOf(bins), Identity);
      var b := KeysOf(SortBy(bins, ByStart));
      forall c
        ensures WithKey(a, Identity, c) == WithKey(b, Identity, c)
      {
        KeysWithKey(SortBy(bins, ByStart), c);
        KeysWithKey(bins, c);
      }
      SortedKeys(SortBy(bins, ByStart));
      StableSortUnique(a, b, Identity);
    }
  }

  lemma {:induction false} KeysWithKey(s: seq<(real, nat)>, c: real)
    ensures WithKey(KeysOf(s), Identity, c) == KeysOf(WithKey(s, ByStart, c))
  {
    if |s| > 0 {
      KeysWithKey(s[1..], c);
      assert KeysOf(s)[1..] == KeysOf(s[1..]);
    }
  }

  lemma SortedKeys(s: seq<(real, nat)>)
    requires SortedBy(s, ByStart)
    ensures SortedBy(KeysOf(s), Identity)
  {
    forall i, j | 0 <= i < j < |s|
      ensures Identity(KeysOf(s)[i]) <= Identity(KeysOf(s)[j])
    {
      assert ByStart(s[i]) <= ByStart(s[j]);
    }
  }

  /** The defect on a small input: for the numbers -1, -2, -2 the labels are -2, -1 but the
      counts are 1, 2, because the bin of -1 was created first and neither start is an array
      index; the bin starting at -2 holds two numbers. */
  lemma MisalignedHistogram()
    ensures HistogramAsWritten([-1.0, -2.0, -2.0]) == Histogram([At(-2.0), At(-1.0)], [1, 2])
    ensures AlignedHistogram([-1.0, -2.0, -2.0]) == Histogram([At(-2.0), At(-1.0)], [2, 1])
  {
    var values := [-1.0, -2.0, -2.0];
    assert Min(values) == -2.0;
    assert Max(values) == -1.0;
    var bins := ExampleBins();
    ExampleAsWritten(bins);
    ExampleAligned(bins);
  }

  lemma ExampleAsWritten(bins: seq<(real, nat)>)
    requires bins == [(-1.0, 1), (-2.0, 2)]
    ensures Labels(SortBy(KeysOf(bins), Identity)) == [At(-2.0), At(-1.0)]
    ensures ValuesOf(OwnOrder(bins, RealIndex)) == [1, 2]
  {
    ExampleLabels(bins);
    ExampleCounts(bins);
  }

  lemma ExampleLabels(bins: seq<(real, nat)>)
    requires bins == [(-1.0, 1), (-2.0, 2)]
    ensures Labels(SortBy(KeysOf(bins), Identity)) == [At(-2.0), At(-1.0)]
  {
    var ks := KeysOf(bins);
    assert |ks| == 2 && ks[0] == -1.0 && ks[1] == -2.0;
    assert ks == [-1.0, -2.0];
    SortTwo(-1.0, -2.0, Identity);
    var ls := Labels(SortBy(ks, Identity));
    assert |ls| == 2 && ls[0] == At(-2.0) && ls[1] == At(-1.0);
  }

  /** Negative bin starts are not array indices, so they keep creation order. */
  lemma ExampleCounts(bins: seq<(real, nat)>)
    requires bins == [(-1.0, 1), (-2.0, 2)]
    ensures ValuesOf(OwnOrder(bins, RealIndex)) == [1, 2]
  {
    assert RealIndex(bins[0].0) == None && RealIndex(bins[1].0) == None;
    OwnOrderWithoutIndices(bins, RealIndex);
  }

  lemma ExampleAligned(bins: seq<(real, nat)>)
    requires bins == [(-1.0, 1), (-2.0, 2)]
    ensures Labels(KeysOf(SortBy(bins, ByStart))) == [At(-2.0), At(-1.0)]
    ensures ValuesOf(SortBy(bins, ByStart)) == [2, 1]
  {
    SortTwo((-1.0, 1), (-2.0, 2), ByStart);
    var sorted := SortBy(bins, ByStart);
    assert KeysOf(sorted) == [-2.0, -1.0];
  }

  /** The bins of -1, -2, -2: the bin of -1 first, holding one number, then the bin of -2,
      holding two. */
  lemma ExampleBins() returns (bins: seq<(real, nat)>)
    ensures bins == Bins([-1.0, -2.0, -2.0], -2.0, -1.0) == [(-1.0, 1), (-2.0, 2)]
  {
    var values := [-1.0, -2.0, -2.0];
    assert BinStart(-1.0, -2.0, -1.0) == -1.0;
    assert BinStart(-2.0, -2.0, -1.0) == -2.0;
    assert values[..2][..1] == [-1.0] && [-1.0][..0] == [];
    var b1: seq<(real, nat)> := [(-1.0, 1)];
    assert Bins([-1.0], -2.0, -1.0) == Put([], -1.0, 1) == b1;
    var b2: seq<(real, nat)> := [(-1.0, 1), (-2.0, 1)];
    assert Get(b1, -2.0) == None;
    assert b1[1..] == [];
    assert Put(b1, -2.0, 1) == [b1[0]] + Put([], -2.0, 1) == b2;
    assert Bins(values[..2], -2.0, -1.0) == b2;
    assert b2[1..] == [(-2.0, 1)];
    assert Get(b2, -2.0) == Get([(-2.0, 1)], -2.0) == Some(1);
    assert Put([(-2.0, 1)], -2.0, 2) == [(-2.0, 2)];
    assert Put(b2, -2.0, 2) == [b2[0]] + Put([(-2.0, 1)], -2.0, 2);
    bins := Bins(values, -2.0, -1.0);
  }

  /** Sorting two elements whose keys are out of order swaps them. */
  lemma SortTwo<T>(a: T, b: T, key: T -> real)
    requires key(b) < key(a)
    ensures SortBy([a, b], key) == [b, a]
  {
    assert [a, b][1..] == [b];
    assert [b][1..] == [];
    assert SortBy([b], key) == Insert(b, [], key) == [b];
    assert Insert(a, [b], key) == [b] + Insert(a, [], key);
  }
}
