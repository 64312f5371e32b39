/** `exportToCSV` of src/components/ExportData.jsx: the dataset written back as CSV text. The
    header line is the first record's keys joined by commas, unquoted; every value is written
    as an escaped field in the sense of section 2 of RFC 4180 (enclosed in double quotes, each
    double quote inside doubled); lines are joined by line feeds with none at the end. The
    partner of the writer is a reader for that field grammar, and the lemmas show that
    reading the text back gives the header and the values. */
module ExportData {
  import opened Wrappers
  import opened JsString
  import opened JsObject
  import opened Records
  import opened FileUpload

  /** `val.replace(/"/g, '""')`. */
  function Escape(v: string): string {
    if |v| == 0 then ""
    else (if v[0] == '"' then "\"\"" else [v[0]]) + Escape(v[1..])
  }

  /** The field written for a string value. */
  function Quote(v: string): string {
    "\"" + Escape(v) + "\""
  }

  function QuoteAll(vs: seq<string>): (r: seq<string>)
    ensures |r| == |vs|
    ensures forall i :: 0 <= i < |vs| ==> r[i] == Quote(vs[i])
  {
    seq(|vs|, i requires 0 <= i < |vs| => Quote(vs[i]))
  }

  /** The first line: `Object.keys(data[0]).join(',')`. */
  function HeaderLine(data: seq<Row>): string
    requires |data| > 0
  {
    Join(ObjectKeys(data[0]), ',')
  }

  /** The line of one record: its values in its own property order, each quoted. */
  function RowLine(row: Row): string {
    Join(QuoteAll(ObjectValues(row)), ',')
  }

  function RowLines(data: seq<Row>): (r: seq<string>)
    ensures |r| == |data|
    ensures forall i :: 0 <= i < |data| ==> r[i] == RowLine(data[i])
  {
    seq(|data|, i requires 0 <= i < |data| => RowLine(data[i]))
  }

  /** The whole file. The button is shown only for a non-empty dataset; the code reads
      `data[0]` unconditionally. */
  function ExportCsv(data: seq<Row>): string
    requires |data| > 0
  {
    Join([HeaderLine(data)] + RowLines(data), '\n')
  }

  /** Collapses every `""` to `"`. */
  function Collapse(t: string): string {
    if |t| >= 2 && t[0] == '"' && t[1] == '"' then "\"" + Collapse(t[2..])
    else if |t| == 0 then ""
    else [t[0]] + Collapse(t[1..])
  }

  /** Strips the enclosing quotes of a field and collapses the doubled quotes inside. */
  function Unquote(s: string): Option<string> {
    if |s| >= 2 && s[0] == '"' && s[|s| - 1] == '"' then Some(Collapse(s[1..|s| - 1])) else None
  }

  lemma {:induction false} CollapseEscape(v: string)
    ensures Collapse(Escape(v)) == v
  {
    if |v| > 0 {
      CollapseEscape(v[1..]);
      var e := Escape(v[1..]);
      if v[0] == '"' {
        assert ("\"\"" + e)[2..] == e;
      } else {
        assert ([v[0]] + e)[1..] == e;
      }
      assert v == [v[0]] + v[1..];
    }
  }

  /** Stripping the quotes of a written field and collapsing its doubled quotes gives the
      value back. */
  lemma QuoteRoundTrip(v: string)
    ensures Unquote(Quote(v)) == Some(v)
  {
    var q := Quote(v);
    assert q[1..|q| - 1] == Escape(v);
    CollapseEscape(v);
  }

  /** Escaping adds nothing but quotes: a character other than `"` occurs in the escaped
      text exactly when it occurs in the value. */
  lemma {:induction false} EscapeKeeps(v: string, c: char)
    requires c != '"'
    ensures c in Escape(v) <==> c in v
  {
    if |v| > 0 {
      EscapeKeeps(v[1..], c);
      assert v == [v[0]] + v[1..];
    }
  }

  /** Reads an escaped field after its opening quote: text with `""` standing for `"`, up to
      the first lone `"`; gives the value and what follows the closing quote. */
  function ReadEscaped(s: string): (r: Option<(string, string)>)
    ensures r.Some? ==> |r.value.1| < |s|
    decreases |s|
  {
    if |s| == 0 then None
    else if s[0] == '"' then
      if |s| > 1 && s[1] == '"' then
        match ReadEscaped(s[2..])
        case None => None
        case Some((v, rest)) => Some(("\"" + v, rest))
      else Some(("", s[1..]))
    else
      match ReadEscaped(s[1..])
      case None => None
      case Some((v, rest)) => Some(([s[0]] + v, rest))
  }

  /** A written field is read back whole, whatever quotes and commas the value holds, and
      reading stops right after its closing quote. */
  lemma {:induction false} ReadEscapedOfEscape(v: string, rest: string)
    requires |rest| == 0 || rest[0] != '"'
    ensures ReadEscaped(Escape(v) + "\"" + rest) == Some((v, rest))
  {
    var s := Escape(v) + "\"" + rest;
    if |v| == 0 {
      assert s == "\"" + rest;
      assert s[1..] == rest;
    } else {
      ReadEscapedOfEscape(v[1..], rest);
      var t := Escape(v[1..]) + "\"" + rest;
      if v[0] == '"' {
        assert s == "\"\"" + t;
        assert s[2..] == t;
      } else {
        assert s == [v[0]] + t;
        assert s[1..] == t;
      }
      assert v == [v[0]] + v[1..];
    }
  }

  /** Reads a line of escaped fields separated by commas. */
  function ReadFields(s: string): Option<seq<string>>
    decreases |s|
  {
    if |s| == 0 || s[0] != '"' then None
    else
      match ReadEscaped(s[1..])
      case None => None
      case Some((v, rest)) =>
        if |rest| == 0 then Some([v])
        else if rest[0] == ',' then
          match ReadFields(rest[1..])
          case None => None
          case Some(vs) => Some([v] + vs)
        else None
  }

  /** A record's line reads back as its values, in order. */
  lemma {:induction false} ReadRowLine(vs: seq<string>)
    requires |vs| >= 1
    ensures ReadFields(Join(QuoteAll(vs), ',')) == Some(vs)
    decreases |vs|
  {
    var qs := QuoteAll(vs);
    if |vs| == 1 {
      assert Join(qs, ',') == Quote(vs[0]);
      ReadFieldsOfQuote(vs[0], "");
      assert vs == [vs[0]];
    } else {
      assert qs[1..] == QuoteAll(vs[1..]);
      var tail := Join(QuoteAll(vs[1..]), ',');
      ReadRowLine(vs[1..]);
      assert Join(qs, ',') == Quote(vs[0]) + [','] + tail;
      ReadFieldsOfQuote(vs[0], tail);
      assert vs == [vs[0]] + vs[1..];
    }
  }

  /** One written field, alone or followed by a comma and more fields. */
  lemma ReadFieldsOfQuote(v: string, more: string)
    ensures ReadFields(Quote(v)) == Some([v])
    ensures ReadFields(Quote(v) + [','] + more) ==
      match ReadFields(more) case None => None case Some(vs) => Some([v] + vs)
  {
    var s := Quote(v);
    assert s[1..] == Escape(v) + "\"" + "";
    ReadEscapedOfEscape(v, "");
    var t := Quote(v) + [','] + more;
    assert t[0] == '"';
    assert t[1..] == Escape(v) + "\"" + ([','] + more);
    ReadEscapedOfEscape(v, [','] + more);
    assert ([','] + more)[1..] == more;
  }

  /** Reads the record lines of a file. */
  function ReadLines(lines: seq<string>): Option<seq<seq<string>>> {
    if |lines| == 0 then Some([])
    else
      match ReadFields(lines[0])
      case None => None
      case Some(vs) =>
        match ReadLines(lines[1..])
        case None => None
        case Some(rest) => Some([vs] + rest)
  }

  /** Reads a file written by `ExportCsv`: the header line split on commas, then one line of
      escaped fields per record. */
  function ReadCsv(text: string): Option<(seq<string>, seq<seq<string>>)> {
    var lines := Split(text, '\n');
    match ReadLines(lines[1..])
    case None => None
    case Some(rows) => Some((Split(lines[0], ','), rows))
  }

  /** Joining pieces that avoid a character, with a separator other than it, avoids it. */
  lemma {:induction false} JoinAvoids(xs: seq<string>, sep: char, c: char)
    requires c != sep
    requires forall i :: 0 <= i < |xs| ==> c !in xs[i]
    ensures c !in Join(xs, sep)
  {
    if |xs| > 1 {
      JoinAvoids(xs[1..], sep, c);
    }
  }

  /** A record line has no line feed when the record's values have none. */
  lemma RowLineSingle(row: Row)
    requires forall i :: 0 <= i < |ObjectValues(row)| ==> '\n' !in ObjectValues(row)[i]
    ensures '\n' !in RowLine(row)
  {
    var qs := QuoteAll(ObjectValues(row));
    forall i | 0 <= i < |qs|
      ensures '\n' !in qs[i]
    {
      EscapeKeeps(ObjectValues(row)[i], '\n');
    }
    JoinAvoids(qs, ',', '\n');
  }

  /** Every record's values, in its own key order. */
  function Table(data: seq<Row>): (r: seq<seq<string>>)
    ensures |r| == |data|
    ensures forall i :: 0 <= i < |data| ==> r[i] == ObjectValues(data[i])
  {
    if |data| == 0 then [] else [ObjectValues(data[0])] + Table(data[1..])
  }

  /** Lines that each read back as their fields read back as the list of those fields. */
  lemma {:induction false} ReadLinesOfFields(lines: seq<string>, table: seq<seq<string>>)
    requires |lines| == |table|
    requires forall i :: 0 <= i < |lines| ==> ReadFields(lines[i]) == Some(table[i])
    ensures ReadLines(lines) == Some(table)
    decreases |lines|
  {
    if |lines| > 0 {
      ReadLinesOfFields(lines[1..], table[1..]);
      assert table == [table[0]] + table[1..];
    }
  }

  lemma ReadLinesOfRows(data: seq<Row>)
    requires forall i :: 0 <= i < |data| ==> |ObjectValues(data[i])| >= 1
    ensures ReadLines(RowLines(data)) == Some(Table(data))
  {
    var lines := RowLines(data);
    var table := Table(data);
    forall i | 0 <= i < |lines|
      ensures ReadFields(lines[i]) == Some(table[i])
    {
      ReadRowLine(ObjectValues(data[i]));
    }
    ReadLinesOfFields(lines, table);
  }

  /** Reading the exported text gives back the first record's keys and every record's values
      in its own key order, provided the keys hold no comma or line feed, no value holds a
      line feed, the first record has a key and every record a value. Quotes and commas in
      values survive. */
  lemma ExportRoundTrip(data: seq<Row>)
    requires |data| > 0 && |ObjectKeys(data[0])| >= 1
    requires forall i :: 0 <= i < |ObjectKeys(data[0])| ==>
      ',' !in ObjectKeys(data[0])[i] && '\n' !in ObjectKeys(data[0])[i]
    requires forall r :: r in data ==> |ObjectValues(r)| >= 1
    requires forall r, i :: r in data && 0 <= i < |ObjectValues(r)| ==> '\n' !in ObjectValues(r)[i]
    ensures ReadCsv(ExportCsv(data)) == Some((ObjectKeys(data[0]), Table(data)))
  {
    ExportLayout(data);
    SplitOfJoin(ObjectKeys(data[0]), ',');
    forall i | 0 <= i < |data|
      ensures |ObjectValues(data[i])| >= 1
    {
      assert data[i] in data;
    }
    ReadLinesOfRows(data);
  }

  /** The exported text is the header line followed by one line per record, in order, when no
      key of the first record and no value holds a line feed. */
  lemma ExportLayout(data: seq<Row>)
    requires |data| > 0
    requires forall i :: 0 <= i < |ObjectKeys(data[0])| ==> '\n' !in ObjectKeys(data[0])[i]
    requires forall r, i :: r in data && 0 <= i < |ObjectValues(r)| ==> '\n' !in ObjectValues(r)[i]
    ensures Split(ExportCsv(data), '\n') == [HeaderLine(data)] + RowLines(data)
  {
    var lines := [HeaderLine(data)] + RowLines(data);
    JoinAvoids(ObjectKeys(data[0]), ',', '\n');
    forall i | 0 <= i < |lines|
      ensures '\n' !in lines[i]
    {
      if i > 0 {
        assert data[i - 1] in data;
        RowLineSingle(data[i - 1]);
      }
    }
    SplitOfJoin(lines, '\n');
  }

  /** Exporting what the CSV reader produced and reading it back gives the first record's
      keys and every record's values: the reader's keys and values never hold a comma or a
      line feed, and every record it keeps has a key and a non-empty value. */
  lemma ExportOfParsed(content: string)
    requires |ParseCsv(content)| > 0
    ensures var data := ParseCsv(content);
      ReadCsv(ExportCsv(data)) == Some((ObjectKeys(data[0]), Table(data)))
  {
    var data := ParseCsv(content);
    ParsedCellsClean(content);
    forall r | r in data
      ensures |ObjectValues(r)| >= 1
      ensures forall i :: 0 <= i < |ObjectValues(r)| ==> '\n' !in ObjectValues(r)[i]
    {
      assert HasContent(r);
      forall i | 0 <= i < |ObjectValues(r)|
        ensures '\n' !in ObjectValues(r)[i]
      {
        OwnEntry(r, i);
        assert CleanText(OwnOrder(r, StringIndex)[i].1);
      }
    }
    assert data[0] in data;
    var keys := ObjectKeys(data[0]);
    forall i | 0 <= i < |keys|
      ensures ',' !in keys[i] && '\n' !in keys[i]
    {
      OwnEntry(data[0], i);
      assert CleanText(OwnOrder(data[0], StringIndex)[i].0);
    }
    ExportRoundTrip(data);
  }
}
