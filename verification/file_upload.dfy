/** Reading an uploaded CSV file into records (src/components/FileUpload.jsx): the text is split
    into lines on `'\n'` and every line into fields on `','`, with no quoting; the first line
    names the columns; every later line becomes a record keyed by the trimmed column names;
    records whose values are all empty are dropped. */
module FileUpload {
  import opened Wrappers
  import opened JsString
  import opened JsArray
  import opened JsObject
  import opened Records

  /** Assigning a string to this key of a plain object changes nothing: the inherited
      `__proto__` setter ignores values that are not objects. */
  const ProtoKey: string := "__proto__"

  /** `obj[key] = value` for a string `value`. */
  function SetField(row: Row, key: string, value: string): Row {
    if key == ProtoKey then row else Put(row, key, value)
  }

  function Lines(content: string): seq<string> {
    Split(content, '\n')
  }

  /** The raw column names: the first line split on commas. */
  function Headers(content: string): seq<string> {
    Split(Lines(content)[0], ',')
  }

  function TrimmedHeaders(headers: seq<string>): (r: seq<string>)
    ensures |r| == |headers|
    ensures forall i :: 0 <= i < |r| ==> r[i] == Trim(headers[i])
  {
    seq(|headers|, i requires 0 <= i < |headers| => Trim(headers[i]))
  }

  /** `values[i] ? values[i].trim() : ''`: a missing or empty field is the empty string. */
  function Cell(values: seq<string>, i: nat): string {
    if i < |values| && values[i] != "" then Trim(values[i]) else ""
  }

  function Cells(values: seq<string>, n: nat): (r: seq<string>)
    ensures |r| == n
    ensures forall i :: 0 <= i < n ==> r[i] == Cell(values, i)
  {
    seq(n, i requires 0 <= i < n => Cell(values, i))
  }

  /** The object `headers.reduce` has built once the first `n` keys have been assigned
      their cells. */
  function BuildRow(keys: seq<string>, cells: seq<string>, n: nat): Row
    requires n <= |keys| && n <= |cells|
  {
    if n == 0 then [] else SetField(BuildRow(keys, cells, n - 1), keys[n - 1], cells[n - 1])
  }

  /** The record made from one data line. */
  function RowOf(headers: seq<string>, line: string): Row {
    BuildRow(TrimmedHeaders(headers), Cells(Split(line, ','), |headers|), |headers|)
  }

  /** `Object.values(row).some(v => v)`. */
  predicate HasContent(row: Row) {
    exists i :: 0 <= i < |ObjectValues(row)| && ObjectValues(row)[i] != ""
  }

  function RowsOf(headers: seq<string>, lines: seq<string>): (r: seq<Row>)
    ensures |r| == |lines|
    ensures forall i :: 0 <= i < |lines| ==> r[i] == RowOf(headers, lines[i])
  {
    seq(|lines|, i requires 0 <= i < |lines| => RowOf(headers, lines[i]))
  }

  /** The records `handleFile` hands to `onDataLoaded`: those of the data lines that hold some
      non-empty value, all of them, in line order, each record as often as its line occurs; a
      file without a line break has no data line and gives none. */
  function ParseCsv(content: string): (r: seq<Row>)
    ensures |r| <= |Lines(content)| - 1
    ensures IsSubsequence(r, RowsOf(Headers(content), Lines(content)[1..]))
    ensures forall i :: 0 <= i < |r| ==> r[i] in RowsOf(Headers(content), Lines(content)[1..])
    ensures forall i :: 0 <= i < |r| ==> HasContent(r[i])
    ensures forall j :: 1 <= j < |Lines(content)| && HasContent(RowOf(Headers(content), Lines(content)[j])) ==>
      RowOf(Headers(content), Lines(content)[j]) in r
    ensures var all := RowsOf(Headers(content), Lines(content)[1..]);
      forall i :: 0 <= i < |all| ==> multiset(r)[all[i]] == (if HasContent(all[i]) then multiset(all)[all[i]] else 0)
    ensures '\n' !in content ==> r == []
  {
    var lines := Lines(content);
    var all := RowsOf(Headers(content), lines[1..]);
    var r := Filter(all, HasContent);
    assert forall j :: 1 <= j < |lines| && HasContent(RowOf(Headers(content), lines[j])) ==>
      RowOf(Headers(content), lines[j]) in r by {
      forall j | 1 <= j < |lines| && HasContent(RowOf(Headers(content), lines[j]))
        ensures RowOf(Headers(content), lines[j]) in r
      {
        assert all[j - 1] == RowOf(Headers(content), lines[j]);
      }
    }
    SingleLine(content);
    r
  }

  lemma SingleLine(content: string)
    ensures '\n' !in content ==> |Lines(content)| == 1
  {
    if '\n' !in content {
      SplitAfterPiece(content, '\n', "");
    }
  }

  /** A record has content exactly when one of its properties is a non-empty string. */
  lemma HasContentIff(row: Row)
    ensures HasContent(row) <==> exists i :: 0 <= i < |row| && row[i].1 != ""
  {
    ObjectValuesContent(row);
  }

  /** The keys of a record are the column names other than `__proto__`, each once. */
  lemma {:induction false} BuildRowKeys(keys: seq<string>, cells: seq<string>, n: nat)
    requires n <= |keys| && n <= |cells|
    ensures forall k :: k in KeysOf(BuildRow(keys, cells, n)) <==> k != ProtoKey && k in keys[..n]
    ensures DistinctKeys(BuildRow(keys, cells, n))
  {
    if n > 0 {
      var prev := BuildRow(keys, cells, n - 1);
      BuildRowKeys(keys, cells, n - 1);
      assert keys[..n] == keys[..n - 1] + [keys[n - 1]];
      if keys[n - 1] != ProtoKey {
        PutDistinct(prev, keys[n - 1], cells[n - 1]);
        PutKeys(prev, keys[n - 1], cells[n - 1]);
      }
    }
  }

  /** The value of a record under a column name is the cell of the last column with that
      name: a later duplicate column overwrites an earlier one. */
  lemma {:induction false} BuildRowCell(keys: seq<string>, cells: seq<string>, n: nat, i: nat)
    requires i < n <= |keys| && n <= |cells|
    requires keys[i] != ProtoKey
    requires forall j :: i < j < n ==> keys[j] != keys[i]
    ensures Lookup(BuildRow(keys, cells, n), keys[i]) == Some(cells[i])
  {
    var prev := BuildRow(keys, cells, n - 1);
    var row := BuildRow(keys, cells, n);
    if i == n - 1 {
      assert row == Put(prev, keys[i], cells[i]);
      PutGet(prev, keys[i], cells[i]);
    } else {
      BuildRowCell(keys, cells, n - 1, i);
      if keys[n - 1] != ProtoKey {
        assert row == Put(prev, keys[n - 1], cells[n - 1]);
        PutOthers(prev, keys[n - 1], cells[n - 1], keys[i]);
      } else {
        assert row == prev;
      }
    }
  }

  /** Every record of the file is the record of one of its data lines. */
  lemma ParsedRowLine(content: string, row: Row) returns (j: nat)
    requires row in ParseCsv(content)
    ensures 1 <= j < |Lines(content)| && row == RowOf(Headers(content), Lines(content)[j])
  {
    var all := RowsOf(Headers(content), Lines(content)[1..]);
    assert row in all;
    var k :| 0 <= k < |all| && all[k] == row;
    j := k + 1;
  }

  /** Every record of the file has exactly the trimmed column names other than `__proto__` as
      keys, each once. */
  lemma ParsedRowShape(content: string, row: Row)
    requires row in ParseCsv(content)
    ensures DistinctKeys(row)
    ensures forall k :: k in KeysOf(row) <==> k != ProtoKey && k in TrimmedHeaders(Headers(content))
  {
    var j := ParsedRowLine(content, row);
    RowOfKeys(Headers(content), Lines(content)[j]);
  }

  /** The keys of the record of a line are the trimmed column names other than `__proto__`,
      each once. */
  lemma RowOfKeys(headers: seq<string>, line: string)
    ensures DistinctKeys(RowOf(headers, line))
    ensures forall k :: k in KeysOf(RowOf(headers, line)) <==> k != ProtoKey && k in TrimmedHeaders(headers)
  {
    var keys := TrimmedHeaders(headers);
    BuildRowKeys(keys, Cells(Split(line, ','), |headers|), |headers|);
    assert keys[..|headers|] == keys;
  }

  /** The value under a column name in the record of a line is that line's trimmed field at
      the last column carrying the name, or `""` when the line is too short or the field empty;
      fields past the last column are ignored. */
  lemma RowOfCell(headers: seq<string>, line: string, i: nat)
    requires i < |headers|
    requires Trim(headers[i]) != ProtoKey
    requires forall m :: i < m < |headers| ==> Trim(headers[m]) != Trim(headers[i])
    ensures Lookup(RowOf(headers, line), Trim(headers[i])) == Some(Cell(Split(line, ','), i))
  {
    BuildRowCell(TrimmedHeaders(headers), Cells(Split(line, ','), |headers|), |headers|, i);
  }

  /** No key or value holds a comma or a line break, and every one is its own trim. */
  predicate CleanText(s: string) {
    ',' !in s && '\n' !in s && Trimmed(s)
  }

  predicate CleanRow(row: Row) {
    forall i :: 0 <= i < |row| ==> CleanText(row[i].0) && CleanText(row[i].1)
  }

  lemma TrimClean(s: string)
    requires ',' !in s && '\n' !in s
    ensures CleanText(Trim(s))
  {
    TrimSubstring(s, ',');
    TrimSubstring(s, '\n');
    TrimShape(s);
  }

  lemma {:induction false} BuildRowClean(keys: seq<string>, cells: seq<string>, n: nat)
    requires n <= |keys| && n <= |cells|
    requires forall i :: 0 <= i < |keys| ==> CleanText(keys[i])
    requires forall i :: 0 <= i < |cells| ==> CleanText(cells[i])
    ensures CleanRow(BuildRow(keys, cells, n))
  {
    if n > 0 {
      BuildRowClean(keys, cells, n - 1);
      if keys[n - 1] != ProtoKey {
        PutClean(BuildRow(keys, cells, n - 1), keys[n - 1], cells[n - 1]);
      }
    }
  }

  lemma CleanPieces(line: string)
    requires '\n' !in line
    ensures forall i :: 0 <= i < |Split(line, ',')| ==> CleanText(Trim(Split(line, ',')[i]))
    ensures forall i :: 0 <= i < |Split(line, ',')| ==> CleanText(Cell(Split(line, ','), i))
  {
    var ps := Split(line, ',');
    SplitPiecesAvoid(line, ',', '\n');
    forall i | 0 <= i < |ps|
      ensures CleanText(Trim(ps[i])) && CleanText(Cell(ps, i))
    {
      TrimClean(ps[i]);
    }
  }

  lemma RowOfClean(headers: seq<string>, line: string)
    requires forall i :: 0 <= i < |headers| ==> CleanText(Trim(headers[i]))
    requires '\n' !in line
    ensures CleanRow(RowOf(headers, line))
  {
    var values := Split(line, ',');
    var cells := Cells(values, |headers|);
    CleanPieces(line);
    forall i | 0 <= i < |cells|
      ensures CleanText(cells[i])
    {
      assert cells[i] == Cell(values, i);
    }
    BuildRowClean(TrimmedHeaders(headers), cells, |headers|);
  }

  lemma {:induction false} PutClean(row: Row, key: string, value: string)
    requires CleanRow(row) && CleanText(key) && CleanText(value)
    ensures CleanRow(Put(row, key, value))
  {
    if |row| > 0 && row[0].0 != key {
      PutClean(row[1..], key, value);
      assert Put(row, key, value) == [row[0]] + Put(row[1..], key, value);
    }
  }

  /** Every key and value of every record read from a file is free of commas and line breaks
      and has no whitespace at either end. */
  lemma ParsedCellsClean(content: string)
    ensures forall i :: 0 <= i < |ParseCsv(content)| ==> CleanRow(ParseCsv(content)[i])
  {
    var lines := Lines(content);
    var headers := Headers(content);
    var r := ParseCsv(content);
    var all := RowsOf(headers, lines[1..]);
    CleanPieces(lines[0]);
    forall i | 0 <= i < |r|
      ensures CleanRow(r[i])
    {
      var j := ParsedRowLine(content, r[i]);
      RowOfClean(headers, lines[j]);
    }
  }

  /** The properties of a record are created in an order fixed by the column names alone. */
  lemma {:induction false} BuildRowKeyOrder(keys: seq<string>, a: seq<string>, b: seq<string>, n: nat)
    requires n <= |keys| && n <= |a| && n <= |b|
    ensures KeysOf(BuildRow(keys, a, n)) == KeysOf(BuildRow(keys, b, n))
  {
    if n > 0 {
      var ra, rb := BuildRow(keys, a, n - 1), BuildRow(keys, b, n - 1);
      BuildRowKeyOrder(keys, a, b, n - 1);
      assert BuildRow(keys, a, n) == SetField(ra, keys[n - 1], a[n - 1]);
      assert BuildRow(keys, b, n) == SetField(rb, keys[n - 1], b[n - 1]);
      if keys[n - 1] != ProtoKey {
        PutKeys(ra, keys[n - 1], a[n - 1]);
        PutKeys(rb, keys[n - 1], b[n - 1]);
      }
    }
  }

  /** Every record read from one file lists its keys in the same order, so a column of values
      written in each record's own key order lines up with the first record's keys. */
  lemma ParsedKeyOrder(content: string, r1: Row, r2: Row)
    requires r1 in ParseCsv(content) && r2 in ParseCsv(content)
    ensures ObjectKeys(r1) == ObjectKeys(r2)
  {
    var headers := Headers(content);
    var j1 := ParsedRowLine(content, r1);
    var j2 := ParsedRowLine(content, r2);
    var keys := TrimmedHeaders(headers);
    BuildRowKeyOrder(keys, Cells(Split(Lines(content)[j1], ','), |headers|),
                     Cells(Split(Lines(content)[j2], ','), |headers|), |headers|);
    OwnOrderKeys(r1, r2, StringIndex);
  }
}
