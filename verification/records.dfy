/** A dataset is a list of records; a record is a plain object whose own properties are
    created one by one and whose values are strings, because the only producer of datasets
    is the CSV reader. */
module Records {
  import opened Wrappers
  import opened JsNumber
  import opened JsObject

  /** A record, as its own properties in creation order. */
  type Row = seq<(string, string)>

  /** `Object.keys(row)`. */
  function ObjectKeys(row: Row): seq<string> {
    KeysOf(OwnOrder(row, StringIndex))
  }

  /** `Object.values(row)`. */
  function ObjectValues(row: Row): seq<string> {
    ValuesOf(OwnOrder(row, StringIndex))
  }

  /** `row[key]` for a key of the record; `None` is `undefined`. */
  function Lookup(row: Row, key: string): Option<string> {
    Get(row, key)
  }

  /** A cell that is missing reads as `undefined`, which JavaScript treats like the empty
      string wherever the dashboard tests it for truthiness. */
  function CellText(row: Row, key: string): string {
    Lookup(row, key).GetOr("")
  }

  /** `Object.keys(row)` lists every key of the record exactly once. */
  lemma ObjectKeysOfRow(row: Row)
    requires DistinctKeys(row)
    ensures |ObjectKeys(row)| == |row|
    ensures forall k :: k in ObjectKeys(row) <==> k in KeysOf(row)
    ensures forall i, j :: 0 <= i < j < |ObjectKeys(row)| ==> ObjectKeys(row)[i] != ObjectKeys(row)[j]
  {
    OwnOrderDistinct(row, StringIndex);
    forall k | k in ObjectKeys(row)
      ensures k in KeysOf(row)
    {
      PermutationKey(OwnOrder(row, StringIndex), row, k);
    }
    forall k | k in KeysOf(row)
      ensures k in ObjectKeys(row)
    {
      PermutationKey(row, OwnOrder(row, StringIndex), k);
    }
  }

  /** `Object.values(row)` holds a non-empty string exactly when some property of the record
      does. */
  lemma ObjectValuesContent(row: Row)
    ensures (exists i :: 0 <= i < |ObjectValues(row)| && ObjectValues(row)[i] != "")
        <==> (exists i :: 0 <= i < |row| && row[i].1 != "")
  {
    var o := OwnOrder(row, StringIndex);
    var vs := ObjectValues(row);
    assert vs == ValuesOf(o);
    if i :| 0 <= i < |vs| && vs[i] != "" {
      var j := PermutationEntry(o, row, i);
      assert row[j].1 == o[i].1 == vs[i];
    }
    if j :| 0 <= j < |row| && row[j].1 != "" {
      var i := PermutationEntry(row, o, j);
      assert vs[i] == o[i].1 == row[j].1;
    }
  }

  /** Every property `Object.keys`/`Object.values` enumerate is a property of the record. */
  lemma OwnEntry(row: Row, i: nat)
    requires i < |OwnOrder(row, StringIndex)|
    ensures OwnOrder(row, StringIndex)[i] in row
    ensures i < |ObjectKeys(row)| && i < |ObjectValues(row)|
  {
    assert OwnOrder(row, StringIndex)[i] in multiset(row);
  }
}
