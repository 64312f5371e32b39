/** The word-frequency aggregation behind the word cloud (the `wordcloud` branch of
    `generateChartData` in src/components/ChartBuilder.jsx): the text column of the first 100
    rows is split on whitespace runs, every piece is stripped of everything but ASCII letters
    and digits and lower-cased, pieces of three characters or more are counted in a plain
    object, and the 50 most frequent words are returned, most frequent first. */
module WordCloud {
  import opened Wrappers
  import opened JsString
  import opened JsArray
  import opened JsObject
  import opened Records
  import opened JsNumber

  const RowLimit: nat := 100
  const WordLimit: nat := 50

  predicate IsAsciiAlnum(c: char) {
    ('a' <= c <= 'z') || ('A' <= c <= 'Z') || ('0' <= c <= '9')
  }

  /** `s.replace(/[^a-zA-Z0-9]/g, '')`. */
  function KeepAlnum(s: string): (r: string)
    ensures |r| <= |s|
    ensures forall i :: 0 <= i < |r| ==> IsAsciiAlnum(r[i])
    ensures IsSubsequence(r, s)
    ensures forall c :: IsAsciiAlnum(c) ==> multiset(r)[c] == multiset(s)[c]
  {
    if |s| == 0 then ""
    else
      assert s == [s[0]] + s[1..];
      if IsAsciiAlnum(s[0]) then
        var r := [s[0]] + KeepAlnum(s[1..]);
        assert r[1..] == KeepAlnum(s[1..]);
        r
      else KeepAlnum(s[1..])
  }

  function LowerChar(c: char): char {
    if 'A' <= c <= 'Z' then (c as int + 32) as char else c
  }

  /** `toLowerCase()` on a string of ASCII letters and digits. */
  function Lower(s: string): (r: string)
    ensures |r| == |s|
    ensures forall i :: 0 <= i < |s| ==> r[i] == LowerChar(s[i])
  {
    seq(|s|, i requires 0 <= i < |s| => LowerChar(s[i]))
  }

  /** A word that can be counted: at least three characters, all lower-case ASCII letters or
      digits. */
  predicate IsWord(w: string) {
    |w| > 2 && forall i :: 0 <= i < |w| ==> ('a' <= w[i] <= 'z') || ('0' <= w[i] <= '9')
  }

  function Clean(piece: string): string {
    Lower(KeepAlnum(piece))
  }

  /** Every piece cleaned, in order. */
  function Cleaned(pieces: seq<string>): (r: seq<string>)
    ensures |r| == |pieces|
    ensures forall i :: 0 <= i < |pieces| ==> r[i] == Clean(pieces[i])
  {
    seq(|pieces|, i requires 0 <= i < |pieces| => Clean(pieces[i]))
  }

  /** A cleaned piece is counted when it has three characters or more. */
  predicate LongEnough(w: string) {
    |w| > 2
  }

  /** A cleaned piece holds only lower-case ASCII letters and digits. */
  lemma CleanIsLower(piece: string)
    ensures forall i :: 0 <= i < |Clean(piece)| ==> ('a' <= Clean(piece)[i] <= 'z') || ('0' <= Clean(piece)[i] <= '9')
  {
    var k := KeepAlnum(piece);
    assert forall i :: 0 <= i < |k| ==> IsAsciiAlnum(k[i]);
  }

  /** The cleaned pieces of one cell that are long enough, in order: a sublist of the
      cleaned pieces holding every cleaned piece of three characters or more as often as it
      occurs, and nothing shorter. */
  function WordsOf(pieces: seq<string>): (r: seq<string>)
    ensures forall i :: 0 <= i < |r| ==> IsWord(r[i])
    ensures IsSubsequence(r, Cleaned(pieces))
    ensures forall i :: 0 <= i < |pieces| && |Clean(pieces[i])| > 2 ==>
      multiset(r)[Clean(pieces[i])] == multiset(Cleaned(pieces))[Clean(pieces[i])]
  {
    var cleaned := Cleaned(pieces);
    var r := Filter(cleaned, LongEnough);
    forall i | 0 <= i < |r|
      ensures IsWord(r[i])
    {
      var j :| 0 <= j < |cleaned| && cleaned[j] == r[i];
      CleanIsLower(pieces[j]);
    }
    r
  }

  /** The words counted for the given rows, in the order they are met. */
  function Words(rows: seq<Row>, col: string): (r: seq<string>)
    ensures forall i :: 0 <= i < |r| ==> IsWord(r[i])
  {
    if |rows| == 0 then []
    else WordsOf(SplitWhite(CellText(rows[0], col))) + Words(rows[1..], col)
  }

  /** The words of one row are the words of its cell's whitespace-separated pieces. */
  lemma WordsOfRow(row: Row, col: string)
    ensures Words([row], col) == WordsOf(SplitWhite(CellText(row, col)))
  {
    assert [row][1..] == [];
  }

  /** Rows are read in order: the words of two runs of rows are the words of the first
      followed by those of the second. */
  lemma {:induction false} WordsAppend(a: seq<Row>, b: seq<Row>, col: string)
    ensures Words(a + b, col) == Words(a, col) + Words(b, col)
    decreases |a|
  {
    if |a| == 0 {
      assert a + b == b;
    } else {
      WordsAppend(a[1..], b, col);
      WordsCons(a[0], a[1..], col);
      WordsCons(a[0], a[1..] + b, col);
      HeadAppend(a, b);
      var w0 := WordsOf(SplitWhite(CellText(a[0], col)));
      AppendAssoc(w0, Words(a[1..], col), Words(b, col));
    }
  }

  lemma HeadAppend<T>(a: seq<T>, b: seq<T>)
    requires |a| > 0
    ensures a == [a[0]] + a[1..] && a + b == [a[0]] + (a[1..] + b)
  {
  }

  lemma AppendAssoc<T>(a: seq<T>, b: seq<T>, c: seq<T>)
    ensures a + (b + c) == (a + b) + c
  {
  }

  lemma WordsCons(row: Row, rest: seq<Row>, col: string)
    ensures Words([row] + rest, col) == WordsOf(SplitWhite(CellText(row, col))) + Words(rest, col)
  {
    var rs := [row] + rest;
    assert rs[0] == row && rs[1..] == rest;
  }

  /** How often `w` occurs in `words`. */
  function Occurrences(words: seq<string>, w: string): nat {
    multiset(words)[w]
  }

  /** `textData[w] = (textData[w] || 0) + 1`, counting own properties only. */
  function Count(counts: seq<(string, nat)>, w: string): seq<(string, nat)> {
    Put(counts, w, Get(counts, w).GetOr(0) + 1)
  }

  /** The count object after the given words have been counted in order. */
  function Counts(words: seq<string>): seq<(string, nat)> {
    if |words| == 0 then [] else Count(Counts(words[..|words| - 1]), words[|words| - 1])
  }

  /** The count object holds exactly the words met, each once, with its number of
      occurrences. */
  lemma CountsCorrect(words: seq<string>)
    ensures DistinctKeys(Counts(words))
    ensures forall w :: Get(Counts(words), w) == if w in words then Some(Occurrences(words, w)) else None
  {
    CountsDistinct(words);
    forall w
      ensures Get(Counts(words), w) == if w in words then Some(Occurrences(words, w)) else None
    {
      CountsGet(words, w);
    }
  }

  lemma {:induction false} CountsDistinct(words: seq<string>)
    ensures DistinctKeys(Counts(words))
  {
    if |words| > 0 {
      var front := words[..|words| - 1];
      var last := words[|words| - 1];
      CountsDistinct(front);
      PutDistinct(Counts(front), last, Get(Counts(front), last).GetOr(0) + 1);
    }
  }

  lemma {:induction false} CountsGet(words: seq<string>, w: string)
    ensures Get(Counts(words), w) == if w in words then Some(Occurrences(words, w)) else None
  {
    if |words| > 0 {
      var front := words[..|words| - 1];
      var last := words[|words| - 1];
      var prev := Counts(front);
      var v := Get(prev, last).GetOr(0) + 1;
      assert words == front + [last];
      assert multiset(words) == multiset(front) + multiset{last};
      assert Counts(words) == Put(prev, last, v);
      if w == last {
        CountsGet(front, last);
        PutGet(prev, last, v);
      } else {
        CountsGet(front, w);
        PutOthers(prev, last, v, w);
        assert w in words <==> w in front;
      }
    }
  }

  /** Sorting by this key puts larger counts first: the comparator `(a, b) => b[1] - a[1]`. */
  function ByCountDescending(e: (string, nat)): real {
    -(e.1 as real)
  }

  /** The result of the branch: `None` (`null`) when no text column is chosen, otherwise the
      counted words as `Object.entries` lists them, stably sorted by descending count, cut to
      the first 50. */
  function WordFrequencies(data: seq<Row>, col: string): Option<seq<(string, nat)>> {
    if col == "" then None else Some(Take(Ranking(Words(Take(data, RowLimit), col)), WordLimit))
  }

  /** The counted words as `Object.entries` lists them, stably sorted by descending count:
      the ranking the result is cut from. Words of equal count keep their property order. */
  function Ranking(words: seq<string>): (r: seq<(string, nat)>)
    ensures multiset(r) == multiset(Counts(words))
    ensures forall i, j :: 0 <= i < j < |r| ==> r[i].1 >= r[j].1
    ensures forall c ::
      WithKey(r, ByCountDescending, c) == WithKey(OwnOrder(Counts(words), StringIndex), ByCountDescending, c)
  {
    var r := SortBy(OwnOrder(Counts(words), StringIndex), ByCountDescending);
    assert forall i, j :: 0 <= i < j < |r| ==> ByCountDescending(r[i]) <= ByCountDescending(r[j]);
    r
  }

  /** Ties follow property order, not the order words are met: of two words met once each,
      an array-index word such as `123` ranks ahead of a word met before it. */
  lemma IndexWordRanksFirst(a: string, b: string)
    requires StringIndex(a).None? && StringIndex(b).Some?
    ensures Ranking([a, b]) == [(b, 1), (a, 1)]
  {
    TwoCounts(a, b);
    OwnOrderTwo((a, 1), (b, 1), StringIndex);
    SortTie((b, 1), (a, 1), ByCountDescending);
  }

  /** Of two properties, an array-index key is listed before an earlier other key. */
  lemma OwnOrderTwo<V>(x: (string, V), y: (string, V), index: string -> Option<nat>)
    requires index(x.0).None? && index(y.0).Some?
    ensures OwnOrder([x, y], index) == [y, x]
  {
    var o := [x, y];
    var tail: seq<(string, V)> := [];
    assert o[1..] == [y] && o[1..][1..] == tail;
    assert IndexEntries(tail, index) == [] && NamedEntries(tail, index) == [];
    assert IndexEntries(o[1..], index) == [y] && NamedEntries(o[1..], index) == [];
    assert IndexEntries(o, index) == [y];
    assert NamedEntries(o, index) == [x];
    SortOne(y, IndexRank<string, V>(index));
  }

  /** An instance: `123` ranks ahead of `abc`. */
  lemma DigitsRankFirst()
    ensures Ranking(["abc", "123"]) == [("123", 1), ("abc", 1)]
  {
    assert !IsDigit("abc"[0]);
    assert StringIndex("123") == Some(123) by {
      StringIndexOfNat(123);
      assert NatToString(123) == "123";
    }
    IndexWordRanksFirst("abc", "123");
  }

  /** Counting two different words once each. */
  lemma TwoCounts(a: string, b: string)
    requires a != b
    ensures Counts([a, b]) == [(a, 1), (b, 1)]
  {
    var ws := [a, b];
    var one: seq<(string, nat)> := [(a, 1)];
    assert ws[..1] == [a] && ws[..1][..0] == [];
    assert Counts([a]) == Put([], a, 1) == one;
    assert Get(one, b) == None;
    assert one[1..] == [];
    assert Put(one, b, 1) == [(a, 1), (b, 1)];
  }

  lemma SortOne<T>(x: T, key: T -> real)
    ensures SortBy([x], key) == [x]
  {
    assert [x][1..] == [];
  }

  lemma SortTie<T>(x: T, y: T, key: T -> real)
    requires key(x) == key(y)
    ensures SortBy([x, y], key) == [x, y]
  {
    assert [x, y][1..] == [y];
    SortOne(y, key);
  }

  /** Every entry of the ranking is a distinct counted word with its number of occurrences,
      which is at least 1. */
  lemma RankingEntries(words: seq<string>)
    ensures DistinctKeys(Ranking(words))
    ensures forall i :: 0 <= i < |Ranking(words)| ==>
      Ranking(words)[i].0 in words && Ranking(words)[i].1 == Occurrences(words, Ranking(words)[i].0)
    ensures forall i :: 0 <= i < |Ranking(words)| ==> Ranking(words)[i].1 >= 1
  {
    var counts := Counts(words);
    var r := Ranking(words);
    CountsCorrect(words);
    PermutationDistinct(counts, r);
    forall i | 0 <= i < |r|
      ensures r[i].0 in words && r[i].1 == Occurrences(words, r[i].0) && r[i].1 >= 1
    {
      RankingEntry(words, i);
    }
  }

  lemma RankingEntry(words: seq<string>, i: nat)
    requires i < |Ranking(words)|
    ensures var e := Ranking(words)[i];
      e.0 in words && e.1 == Occurrences(words, e.0) && e.1 >= 1
  {
    var counts := Counts(words);
    var r := Ranking(words);
    CountsCorrect(words);
    var m := PermutationEntry(r, counts, i);
    GetEntry(counts, m);
    assert r[i].0 in multiset(words);
  }

  /** The ranking lists words only. */
  lemma RankingWords(words: seq<string>)
    requires forall i :: 0 <= i < |words| ==> IsWord(words[i])
    ensures forall i :: 0 <= i < |Ranking(words)| ==> IsWord(Ranking(words)[i].0)
  {
    RankingEntries(words);
  }

  /** Every word met has its entry in the ranking. */
  lemma RankingComplete(words: seq<string>, w: string)
    requires w in words
    ensures exists i :: 0 <= i < |Ranking(words)| && Ranking(words)[i] == (w, Occurrences(words, w))
  {
    var counts := Counts(words);
    CountsCorrect(words);
    var e := (w, Occurrences(words, w));
    GetSome(counts, w);
    assert e in counts;
    assert e in multiset(Ranking(words));
  }

  /** The word cloud's data: at most 50 distinct words, each a lower-case ASCII word of three
      characters or more met in the text column of the first 100 rows. */
  lemma WordFrequenciesWords(data: seq<Row>, col: string)
    requires col != ""
    ensures WordFrequencies(data, col).Some?
    ensures var r := WordFrequencies(data, col).value;
      && |r| <= WordLimit
      && DistinctKeys(r)
      && (forall i :: 0 <= i < |r| ==> IsWord(r[i].0) && r[i].0 in Words(Take(data, RowLimit), col))
  {
    var words := Words(Take(data, RowLimit), col);
    var ranking := Ranking(words);
    var r := WordFrequencies(data, col).value;
    assert r == Take(ranking, WordLimit);
    RankingEntries(words);
    RankingWords(words);
    TakeDistinct(ranking, WordLimit);
    forall i | 0 <= i < |r|
      ensures IsWord(r[i].0) && r[i].0 in words
    {
      assert r[i] == ranking[i];
    }
  }

  /** A prefix of a list with distinct keys has distinct keys. */
  lemma TakeDistinct<V>(s: seq<(string, V)>, n: nat)
    requires DistinctKeys(s)
    ensures DistinctKeys(Take(s, n))
  {
    var t := Take(s, n);
    forall i, j | 0 <= i < j < |t|
      ensures t[i].0 != t[j].0
    {
      assert t[i] == s[i] && t[j] == s[j];
    }
  }

  /** Each listed word comes with its number of occurrences in the text column of the first
      100 rows, so at least 1, and the counts never increase down the list. */
  lemma WordFrequenciesCounts(data: seq<Row>, col: string)
    requires col != ""
    ensures WordFrequencies(data, col).Some?
    ensures var r := WordFrequencies(data, col).value;
      && (forall i :: 0 <= i < |r| ==> r[i].1 == Occurrences(Words(Take(data, RowLimit), col), r[i].0) && r[i].1 >= 1)
      && (forall i, j :: 0 <= i < j < |r| ==> r[i].1 >= r[j].1)
  {
    RankingEntries(Words(Take(data, RowLimit), col));
  }

  /** Only the most frequent words are kept: a word met but left out has no more occurrences
      than any listed word, and nothing is left out when fewer than 50 words are listed. */
  lemma WordFrequenciesTop(data: seq<Row>, col: string, w: string)
    requires col != ""
    requires w in Words(Take(data, RowLimit), col)
    requires forall i :: 0 <= i < |WordFrequencies(data, col).value| ==> WordFrequencies(data, col).value[i].0 != w
    ensures |WordFrequencies(data, col).value| == WordLimit
    ensures forall i :: 0 <= i < WordLimit ==>
      WordFrequencies(data, col).value[i].1 >= Occurrences(Words(Take(data, RowLimit), col), w)
  {
    var words := Words(Take(data, RowLimit), col);
    var ranking := Ranking(words);
    var r := WordFrequencies(data, col).value;
    RankingComplete(words, w);
    var m :| 0 <= m < |ranking| && ranking[m] == (w, Occurrences(words, w));
    forall i | 0 <= i < |r|
      ensures ranking[i].0 != w
    {
      assert r[i] == ranking[i];
    }
    assert |r| < |ranking|;
    forall i | 0 <= i < WordLimit
      ensures r[i].1 >= ranking[m].1
    {
      assert r[i] == ranking[i];
    }
  }

  /** Rows after the first 100 never change the word cloud. */
  lemma OnlyFirstRowsCount(data: seq<Row>, col: string)
    ensures WordFrequencies(data, col) == WordFrequencies(Take(data, RowLimit), col)
  {
    assert Take(Take(data, RowLimit), RowLimit) == Take(data, RowLimit);
  }

  /** The values a property of the count object holds in the code as written, where the
      lookup `textData[w]` also sees inherited properties. */
  datatype JsValue = Num(n: nat) | Text(s: string) | ObjectConstructor

  /** The one countable word that names an inherited property: every plain object inherits
      `constructor`, the `Object` function, from `Object.prototype`. */
  const InheritedKey: string := "constructor"

  /** The `Object` function converted to a string, as engines render built-in functions. */
  const ObjectSource: string := "function Object() { [native code] }"

  /** `textData[w]` as written: an own property, else the inherited `constructor`, else
      `undefined`. */
  function ReadAsWritten(o: seq<(string, JsValue)>, w: string): Option<JsValue> {
    match Get(o, w)
    case Some(v) => Some(v)
    case None => if w == InheritedKey then Some(ObjectConstructor) else None
  }

  /** `(x || 0) + 1`: numbers add, anything else non-empty is converted to a string and gets
      `"1"` appended. */
  function Increment(x: Option<JsValue>): JsValue {
    match x
    case None => Num(1)
    case Some(Num(n)) => Num(n + 1)
    case Some(Text(s)) => if s == "" then Num(1) else Text(s + "1")
    case Some(ObjectConstructor) => Text(ObjectSource + "1")
  }

  /** The count object as written after the given words have been counted in order. */
  function CountsAsWritten(words: seq<string>): seq<(string, JsValue)> {
    if |words| == 0 then []
    else
      var prev := CountsAsWritten(words[..|words| - 1]);
      var w := words[|words| - 1];
      Put(prev, w, Increment(ReadAsWritten(prev, w)))
  }

  /** The defect on the smallest input: a text cell holding the single word `constructor`
      stores a string under that word, where counting it gives 1. */
  lemma ConstructorNotCounted()
    ensures Get(CountsAsWritten([InheritedKey]), InheritedKey) == Some(Text(ObjectSource + "1"))
    ensures Get(Counts([InheritedKey]), InheritedKey) == Some(1)
  {
    var ws := [InheritedKey];
    assert ws[..0] == [];
    PutGet([], InheritedKey, Text(ObjectSource + "1"));
    CountsGet(ws, InheritedKey);
  }

  /** Once the word `constructor` has been met, its value is a non-empty string, never a
      count. */
  lemma {:induction false} ConstructorAlwaysText(words: seq<string>)
    requires InheritedKey in words
    ensures Get(CountsAsWritten(words), InheritedKey).Some?
    ensures Get(CountsAsWritten(words), InheritedKey).value.Text?
    ensures Get(CountsAsWritten(words), InheritedKey).value.s != ""
  {
    var front := words[..|words| - 1];
    var w := words[|words| - 1];
    var prev := CountsAsWritten(front);
    var v := Increment(ReadAsWritten(prev, w));
    assert words == front + [w];
    if w == InheritedKey {
      if InheritedKey in front {
        ConstructorAlwaysText(front);
      } else {
        AsWrittenUnmet(front, w);
      }
      PutGet(prev, w, v);
    } else {
      ConstructorAlwaysText(front);
      PutOthers(prev, w, v, InheritedKey);
    }
  }

  /** A word not met has no own property in the count object as written. */
  lemma {:induction false} AsWrittenUnmet(words: seq<string>, k: string)
    requires k !in words
    ensures Get(CountsAsWritten(words), k) == None
  {
    if |words| > 0 {
      var front := words[..|words| - 1];
      var w := words[|words| - 1];
      var prev := CountsAsWritten(front);
      assert words == front + [w];
      AsWrittenUnmet(front, k);
      PutOthers(prev, w, Increment(ReadAsWritten(prev, w)), k);
    }
  }

  /** A count object's entries with every count as a JavaScript number. */
  function AsNumbers(o: seq<(string, nat)>): (r: seq<(string, JsValue)>)
    ensures |r| == |o|
  {
    if |o| == 0 then [] else [(o[0].0, Num(o[0].1))] + AsNumbers(o[1..])
  }

  lemma {:induction false} GetAsNumbers(o: seq<(string, nat)>, k: string)
    ensures Get(AsNumbers(o), k) == if Get(o, k).Some? then Some(Num(Get(o, k).value)) else None
  {
    if |o| > 0 && o[0].0 != k {
      GetAsNumbers(o[1..], k);
      assert AsNumbers(o)[1..] == AsNumbers(o[1..]);
    }
  }

  lemma {:induction false} PutAsNumbers(o: seq<(string, nat)>, k: string, v: nat)
    ensures Put(AsNumbers(o), k, Num(v)) == AsNumbers(Put(o, k, v))
  {
    if |o| > 0 {
      assert AsNumbers(o)[1..] == AsNumbers(o[1..]);
      if o[0].0 != k {
        PutAsNumbers(o[1..], k, v);
      }
    }
  }

  /** Text without the word `constructor` is counted by the code as written exactly as by
      own-property counting. */
  lemma {:induction false} AsWrittenAgrees(words: seq<string>)
    requires InheritedKey !in words
    ensures CountsAsWritten(words) == AsNumbers(Counts(words))
  {
    if |words| > 0 {
      var front := words[..|words| - 1];
      var w := words[|words| - 1];
      assert words == front + [w];
      AsWrittenAgrees(front);
      var prev := Counts(front);
      GetAsNumbers(prev, w);
      PutAsNumbers(prev, w, Get(prev, w).GetOr(0) + 1);
    }
  }
}
