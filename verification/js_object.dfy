/** Plain JavaScript objects used as dictionaries (`{}` with `obj[k] = v`), as the list of
    their own data properties in creation order. `Object.keys`, `Object.values` and
    `Object.entries` do not enumerate in creation order: keys that are array indices come
    first, in ascending numeric order, and only then the other keys in creation order
    (OrdinaryOwnPropertyKeys, section 10.1.11 of ECMAScript 2023). The key type is generic
    because the histogram keys its bins by number; `index` says which keys are array
    indices. */
module JsObject {
  import opened Wrappers
  import opened JsArray
  import opened JsNumber

  /** Property keys at or above this value are not array indices (2^32 - 1). */
  const ArrayIndexLimit: nat := 4294967295

  function KeysOf<K, V>(o: seq<(K, V)>): (ks: seq<K>)
    ensures |ks| == |o|
    ensures forall i :: 0 <= i < |o| ==> ks[i] == o[i].0
  {
    if |o| == 0 then [] else [o[0].0] + KeysOf(o[1..])
  }

  function ValuesOf<K, V>(o: seq<(K, V)>): (vs: seq<V>)
    ensures |vs| == |o|
    ensures forall i :: 0 <= i < |o| ==> vs[i] == o[i].1
  {
    if |o| == 0 then [] else [o[0].1] + ValuesOf(o[1..])
  }

  predicate DistinctKeys<K(==), V>(o: seq<(K, V)>) {
    forall i, j :: 0 <= i < j < |o| ==> o[i].0 != o[j].0
  }

  /** A list of entries has distinct keys exactly when its head's key does not recur and its
      tail has distinct keys. */
  lemma DistinctCons<K, V>(x: (K, V), o: seq<(K, V)>)
    ensures DistinctKeys([x] + o) <==> x.0 !in KeysOf(o) && DistinctKeys(o)
  {
    var r := [x] + o;
    assert r[1..] == o;
    if DistinctKeys(r) {
      forall m | 0 <= m < |o|
        ensures o[m].0 != x.0
      {
        assert r[0] == x && r[m + 1] == o[m];
      }
      forall i, j | 0 <= i < j < |o|
        ensures o[i].0 != o[j].0
      {
        assert r[i + 1] == o[i] && r[j + 1] == o[j];
      }
    }
  }

  /** `o[k]` for an own property: the value stored under `k`, if there is one. */
  function Get<K(==), V>(o: seq<(K, V)>, k: K): Option<V> {
    if |o| == 0 then None
    else if o[0].0 == k then Some(o[0].1)
    else Get(o[1..], k)
  }

  /** A key has a value exactly when it is a key of the object, and the value is stored
      under it. */
  lemma {:induction false} GetSome<K, V>(o: seq<(K, V)>, k: K)
    ensures Get(o, k).Some? <==> k in KeysOf(o)
    ensures Get(o, k).Some? ==> (k, Get(o, k).value) in o
  {
    if |o| > 0 && o[0].0 != k {
      GetSome(o[1..], k);
      assert o == [o[0]] + o[1..];
    }
  }

  /** With distinct keys, every entry is what a lookup of its key finds. */
  lemma {:induction false} GetEntry<K, V>(o: seq<(K, V)>, i: nat)
    requires DistinctKeys(o) && i < |o|
    ensures Get(o, o[i].0) == Some(o[i].1)
  {
    if i > 0 {
      assert o == [o[0]] + o[1..];
      DistinctCons(o[0], o[1..]);
      assert o[i].0 != o[0].0;
      GetEntry(o[1..], i - 1);
    }
  }

  /** `o[k] = v`: the value of an existing key is replaced where it stands; a new key is
      appended. */
  function Put<K(==), V>(o: seq<(K, V)>, k: K, v: V): seq<(K, V)> {
    if |o| == 0 then [(k, v)]
    else if o[0].0 == k then [(k, v)] + o[1..]
    else [o[0]] + Put(o[1..], k, v)
  }

  /** `o[k] = v` keeps the keys where they are and appends `k` when it is new. */
  lemma {:induction false} PutKeys<K, V>(o: seq<(K, V)>, k: K, v: V)
    ensures KeysOf(Put(o, k, v)) == if k in KeysOf(o) then KeysOf(o) else KeysOf(o) + [k]
  {
    if |o| > 0 {
      assert o == [o[0]] + o[1..];
      if o[0].0 != k {
        var t := Put(o[1..], k, v);
        PutKeys(o[1..], k, v);
        assert ([o[0]] + t)[1..] == t;
      }
    }
  }

  /** After `o[k] = v`, `o[k]` is `v`. */
  lemma {:induction false} PutGet<K, V>(o: seq<(K, V)>, k: K, v: V)
    ensures Get(Put(o, k, v), k) == Some(v)
  {
    if |o| > 0 && o[0].0 != k {
      PutGet(o[1..], k, v);
      assert Put(o, k, v)[1..] == Put(o[1..], k, v);
    }
  }

  /** `o[k] = v` changes the value of no other key. */
  lemma {:induction false} PutOthers<K, V>(o: seq<(K, V)>, k: K, v: V, k': K)
    requires k' != k
    ensures Get(Put(o, k, v), k') == Get(o, k')
  {
    if |o| > 0 {
      var r := Put(o, k, v);
      assert r[1..] == o[1..] || o[0].0 != k;
      if o[0].0 != k {
        PutOthers(o[1..], k, v, k');
        assert r[1..] == Put(o[1..], k, v);
      } else {
        assert r[1..] == o[1..];
      }
    }
  }

  /** `o[k] = v` keeps the keys of a dictionary distinct. */
  lemma {:induction false} PutDistinct<K, V>(o: seq<(K, V)>, k: K, v: V)
    requires DistinctKeys(o)
    ensures DistinctKeys(Put(o, k, v))
  {
    if |o| > 0 {
      var r := Put(o, k, v);
      assert o == [o[0]] + o[1..];
      DistinctCons(o[0], o[1..]);
      if o[0].0 == k {
        assert r == [(k, v)] + o[1..];
        DistinctCons((k, v), o[1..]);
      } else {
        var t := Put(o[1..], k, v);
        PutDistinct(o[1..], k, v);
        PutKeys(o[1..], k, v);
        assert r == [o[0]] + t;
        DistinctCons(o[0], t);
      }
    }
  }

  /** The array index a string property key denotes: the key must be the canonical decimal
      form of an integer below 2^32 - 1. */
  function StringIndex(k: string): (r: Option<nat>)
    ensures r.Some? ==> r.value < ArrayIndexLimit && k == NatToString(r.value)
  {
    if |k| > 0 && AllDigits(k) && (k[0] != '0' || |k| == 1) && DigitsValue(k) < ArrayIndexLimit then
      CanonicalDigits(k);
      Some(DigitsValue(k))
    else None
  }

  /** Every integer below 2^32 - 1 written in decimal is an array index. */
  lemma StringIndexOfNat(n: nat)
    requires n < ArrayIndexLimit
    ensures StringIndex(NatToString(n)) == Some(n)
  {
  }

  /** A digit string without a leading zero is the decimal rendering of its value. */
  lemma {:induction false} CanonicalDigits(k: string)
    requires |k| > 0 && AllDigits(k) && (k[0] != '0' || |k| == 1)
    ensures NatToString(DigitsValue(k)) == k
    decreases |k|
  {
    var last := k[|k| - 1];
    if |k| == 1 {
      assert DigitChar(DigitValue(last)) == last;
      assert k == [last];
    } else {
      var p := k[..|k| - 1];
      assert p[0] == k[0];
      LeadingDigitPositive(p);
      CanonicalDigits(p);
      var n := DigitsValue(k);
      assert n == DigitsValue(p) * 10 + DigitValue(last);
      assert n / 10 == DigitsValue(p) && n % 10 == DigitValue(last);
      assert DigitChar(DigitValue(last)) == last;
      assert k == p + [last];
    }
  }

  lemma {:induction false} LeadingDigitPositive(p: string)
    requires |p| > 0 && AllDigits(p) && p[0] != '0'
    ensures DigitsValue(p) >= 1
    decreases |p|
  {
    if |p| > 1 {
      var q := p[..|p| - 1];
      assert q[0] == p[0];
      LeadingDigitPositive(q);
    }
  }

  /** The entries whose key is an array index, in creation order. */
  function IndexEntries<K, V>(o: seq<(K, V)>, index: K -> Option<nat>): (r: seq<(K, V)>)
    ensures forall i :: 0 <= i < |r| ==> index(r[i].0).Some?
  {
    if |o| == 0 then []
    else if index(o[0].0).Some? then [o[0]] + IndexEntries(o[1..], index)
    else IndexEntries(o[1..], index)
  }

  /** The entries whose key is not an array index, in creation order. */
  function NamedEntries<K, V>(o: seq<(K, V)>, index: K -> Option<nat>): (r: seq<(K, V)>)
    ensures forall i :: 0 <= i < |r| ==> index(r[i].0).None?
  {
    if |o| == 0 then []
    else if index(o[0].0).None? then [o[0]] + NamedEntries(o[1..], index)
    else NamedEntries(o[1..], index)
  }

  /** The sort key that orders array-index entries by index. */
  function IndexRank<K, V>(index: K -> Option<nat>): ((K, V)) -> real {
    (e: (K, V)) => index(e.0).GetOr(0) as real
  }

  /** The order in which `Object.keys`, `Object.values` and `Object.entries` list the own
      properties of `o`: a permutation of `o` in which every array-index key comes before every
      other key, array-index keys ascend, and the other keys keep their creation order. */
  function OwnOrder<K, V>(o: seq<(K, V)>, index: K -> Option<nat>): (r: seq<(K, V)>)
    ensures |r| == |o| && multiset(r) == multiset(o)
    ensures forall i, j :: 0 <= i < j < |r| && index(r[j].0).Some? ==>
      index(r[i].0).Some? && index(r[i].0).value <= index(r[j].0).value
    ensures NamedEntries(r, index) == NamedEntries(o, index)
  {
    var sorted := SortBy(IndexEntries(o, index), IndexRank<K, V>(index));
    var named := NamedEntries(o, index);
    OwnOrderShape(o, index, sorted, named);
    sorted + named
  }

  lemma OwnOrderShape<K, V>(o: seq<(K, V)>, index: K -> Option<nat>, sorted: seq<(K, V)>, named: seq<(K, V)>)
    requires sorted == SortBy(IndexEntries(o, index), IndexRank<K, V>(index))
    requires named == NamedEntries(o, index)
    ensures |sorted + named| == |o| && multiset(sorted + named) == multiset(o)
    ensures var r := sorted + named;
      forall i, j :: 0 <= i < j < |r| && index(r[j].0).Some? ==>
        index(r[i].0).Some? && index(r[i].0).value <= index(r[j].0).value
    ensures NamedEntries(sorted + named, index) == named
  {
    SplitEntries(o, index);
    NamedEntriesConcat(sorted, named, index);
    SortedIndexEntries(o, index, sorted);
    NamedEntriesOfIndexed(sorted, index);
    NamedEntriesOfNamed(named, index);
    IndexFirst(sorted, named, index);
  }

  lemma SortedIndexEntries<K, V>(o: seq<(K, V)>, index: K -> Option<nat>, sorted: seq<(K, V)>)
    requires sorted == SortBy(IndexEntries(o, index), IndexRank<K, V>(index))
    ensures forall i :: 0 <= i < |sorted| ==> index(sorted[i].0).Some?
    ensures forall i, j :: 0 <= i < j < |sorted| ==> index(sorted[i].0).GetOr(0) <= index(sorted[j].0).GetOr(0)
  {
    var ix := IndexEntries(o, index);
    forall i | 0 <= i < |sorted|
      ensures index(sorted[i].0).Some?
    {
      assert sorted[i] in multiset(ix);
    }
    forall i, j | 0 <= i < j < |sorted|
      ensures index(sorted[i].0).GetOr(0) <= index(sorted[j].0).GetOr(0)
    {
      assert IndexRank<K, V>(index)(sorted[i]) <= IndexRank<K, V>(index)(sorted[j]);
    }
  }

  lemma IndexFirst<K, V>(sorted: seq<(K, V)>, named: seq<(K, V)>, index: K -> Option<nat>)
    requires forall i :: 0 <= i < |sorted| ==> index(sorted[i].0).Some?
    requires forall i, j :: 0 <= i < j < |sorted| ==> index(sorted[i].0).GetOr(0) <= index(sorted[j].0).GetOr(0)
    requires forall i :: 0 <= i < |named| ==> index(named[i].0).None?
    ensures var r := sorted + named;
      forall i, j :: 0 <= i < j < |r| && index(r[j].0).Some? ==>
        index(r[i].0).Some? && index(r[i].0).value <= index(r[j].0).value
  {
    var r := sorted + named;
    forall m | |sorted| <= m < |r|
      ensures index(r[m].0).None?
    {
      assert r[m] == named[m - |sorted|];
    }
    forall i, j | 0 <= i < j < |r| && index(r[j].0).Some?
      ensures index(r[i].0).Some? && index(r[i].0).value <= index(r[j].0).value
    {
      assert r[i] == sorted[i] && r[j] == sorted[j];
    }
  }

  lemma {:induction false} SplitEntries<K, V>(o: seq<(K, V)>, index: K -> Option<nat>)
    ensures multiset(IndexEntries(o, index)) + multiset(NamedEntries(o, index)) == multiset(o)
    ensures |IndexEntries(o, index)| + |NamedEntries(o, index)| == |o|
  {
    if |o| > 0 {
      SplitEntries(o[1..], index);
      assert o == [o[0]] + o[1..];
    }
  }

  lemma {:induction false} NamedEntriesConcat<K, V>(a: seq<(K, V)>, b: seq<(K, V)>, index: K -> Option<nat>)
    ensures NamedEntries(a + b, index) == NamedEntries(a, index) + NamedEntries(b, index)
  {
    if |a| == 0 {
      assert a + b == b;
    } else {
      var x := a[0];
      assert a == [x] + a[1..];
      assert a + b == [x] + (a[1..] + b);
      NamedEntriesCons(x, a[1..] + b, index);
      NamedEntriesCons(x, a[1..], index);
      NamedEntriesConcat(a[1..], b, index);
    }
  }

  lemma NamedEntriesCons<K, V>(x: (K, V), o: seq<(K, V)>, index: K -> Option<nat>)
    ensures NamedEntries([x] + o, index) == (if index(x.0).None? then [x] else []) + NamedEntries(o, index)
  {
    assert ([x] + o)[1..] == o;
  }

  lemma {:induction false} NamedEntriesOfIndexed<K, V>(a: seq<(K, V)>, index: K -> Option<nat>)
    requires forall i :: 0 <= i < |a| ==> index(a[i].0).Some?
    ensures NamedEntries(a, index) == []
  {
    if |a| > 0 {
      NamedEntriesOfIndexed(a[1..], index);
    }
  }

  lemma {:induction false} NamedEntriesOfNamed<K, V>(a: seq<(K, V)>, index: K -> Option<nat>)
    requires forall i :: 0 <= i < |a| ==> index(a[i].0).None?
    ensures NamedEntries(a, index) == a
  {
    if |a| > 0 {
      NamedEntriesOfNamed(a[1..], index);
      assert a == [a[0]] + a[1..];
    }
  }

  /** With no array-index key, enumeration order is creation order. */
  lemma OwnOrderWithoutIndices<K, V>(o: seq<(K, V)>, index: K -> Option<nat>)
    requires forall i :: 0 <= i < |o| ==> index(o[i].0).None?
    ensures OwnOrder(o, index) == o
  {
    NoIndexEntries(o, index);
    NamedEntriesOfNamed(o, index);
  }

  lemma {:induction false} NoIndexEntries<K, V>(o: seq<(K, V)>, index: K -> Option<nat>)
    requires forall i :: 0 <= i < |o| ==> index(o[i].0).None?
    ensures IndexEntries(o, index) == []
  {
    if |o| > 0 {
      NoIndexEntries(o[1..], index);
    }
  }

  /** Enumeration order keeps keys distinct. */
  lemma OwnOrderDistinct<K, V>(o: seq<(K, V)>, index: K -> Option<nat>)
    requires DistinctKeys(o)
    ensures DistinctKeys(OwnOrder(o, index))
  {
    PermutationDistinct(o, OwnOrder(o, index));
  }

  /** An entry of one list is at some position of any permutation of it. */
  lemma PermutationEntry<K, V>(a: seq<(K, V)>, b: seq<(K, V)>, j: nat) returns (i: nat)
    requires multiset(a) == multiset(b) && j < |a|
    ensures i < |b| && b[i] == a[j]
  {
    assert a[j] in multiset(b);
    i :| 0 <= i < |b| && b[i] == a[j];
  }

  /** A permutation of the entries has the same keys. */
  lemma PermutationKey<K, V>(a: seq<(K, V)>, b: seq<(K, V)>, k: K)
    requires multiset(a) == multiset(b) && k in KeysOf(a)
    ensures k in KeysOf(b)
  {
    var j :| 0 <= j < |a| && KeysOf(a)[j] == k;
    var i := PermutationEntry(a, b, j);
    assert KeysOf(b)[i] == k;
  }

  /** A permutation of entries with distinct keys has distinct keys: two entries with the same
      key would be the same entry of `o`, occurring twice. */
  lemma PermutationDistinct<K, V>(o: seq<(K, V)>, r: seq<(K, V)>)
    requires DistinctKeys(o) && multiset(r) == multiset(o)
    ensures DistinctKeys(r)
  {
    forall i, j | 0 <= i < j < |r|
      ensures r[i].0 != r[j].0
    {
      assert r[i] in multiset(o) && r[j] in multiset(o);
      var a :| 0 <= a < |o| && o[a] == r[i];
      var b :| 0 <= b < |o| && o[b] == r[j];
      DistinctCount(o, a);
      MultisetPairCount(r, i, j);
    }
  }

  lemma MultisetPairCount<T>(r: seq<T>, i: nat, j: nat)
    requires i < j < |r|
    ensures r[i] == r[j] ==> multiset(r)[r[i]] >= 2
  {
    assert r == r[..i] + [r[i]] + r[i + 1..j] + [r[j]] + r[j + 1..];
  }

  lemma DistinctCount<K, V>(o: seq<(K, V)>, a: nat)
    requires DistinctKeys(o) && a < |o|
    ensures multiset(o)[o[a]] == 1
  {
    assert o == o[..a] + [o[a]] + o[a + 1..];
    var pre, post := o[..a], o[a + 1..];
    forall m | 0 <= m < |pre|
      ensures pre[m] != o[a]
    {
      assert pre[m] == o[m];
    }
    forall m | 0 <= m < |post|
      ensures post[m] != o[a]
    {
      assert post[m] == o[a + 1 + m];
    }
    assert o[a] !in multiset(o[..a]);
    assert o[a] !in multiset(o[a + 1..]);
  }

  /** The sum of the values of a count dictionary. */
  function SumValues<K>(o: seq<(K, nat)>): nat {
    if |o| == 0 then 0 else o[0].1 + SumValues(o[1..])
  }

  function Sum(xs: seq<nat>): nat {
    if |xs| == 0 then 0 else xs[0] + Sum(xs[1..])
  }

  lemma {:induction false} SumOfValues<K>(o: seq<(K, nat)>)
    ensures Sum(ValuesOf(o)) == SumValues(o)
  {
    if |o| > 0 {
      SumOfValues(o[1..]);
    }
  }

  lemma {:induction false} SumValuesConcat<K>(a: seq<(K, nat)>, b: seq<(K, nat)>)
    ensures SumValues(a + b) == SumValues(a) + SumValues(b)
  {
    if |a| == 0 {
      assert a + b == b;
    } else {
      SumValuesConcat(a[1..], b);
      assert (a + b)[1..] == a[1..] + b;
    }
  }

  lemma {:induction false} SumValuesInsert<K>(x: (K, nat), s: seq<(K, nat)>, key: ((K, nat)) -> real)
    ensures SumValues(Insert(x, s, key)) == x.1 + SumValues(s)
  {
    if |s| > 0 && key(x) > key(s[0]) {
      SumValuesInsert(x, s[1..], key);
      assert Insert(x, s, key)[1..] == Insert(x, s[1..], key);
    } else {
      assert Insert(x, s, key)[1..] == s;
    }
  }

  /** Sorting a count dictionary's entries leaves the total unchanged. */
  lemma {:induction false} SumValuesSort<K>(s: seq<(K, nat)>, key: ((K, nat)) -> real)
    ensures SumValues(SortBy(s, key)) == SumValues(s)
  {
    if |s| > 0 {
      SumValuesSort(s[1..], key);
      SumValuesInsert(s[0], SortBy(s[1..], key), key);
    }
  }

  lemma {:induction false} SumValuesSplit<K>(o: seq<(K, nat)>, index: K -> Option<nat>)
    ensures SumValues(IndexEntries(o, index)) + SumValues(NamedEntries(o, index)) == SumValues(o)
  {
    if |o| > 0 {
      SumValuesSplit(o[1..], index);
    }
  }

  /** Enumerating a count dictionary in own-property order leaves the total unchanged. */
  lemma OwnOrderSum<K>(o: seq<(K, nat)>, index: K -> Option<nat>)
    ensures SumValues(OwnOrder(o, index)) == SumValues(o)
  {
    var ix := IndexEntries(o, index);
    SumValuesSort(ix, IndexRank<K, nat>(index));
    SumValuesConcat(SortBy(ix, IndexRank<K, nat>(index)), NamedEntries(o, index));
    SumValuesSplit(o, index);
  }

  /** The key order of the own-property enumeration depends on the keys alone: two objects
      whose properties were created with the same keys in the same order enumerate their keys
      in the same order, whatever their values. */
  lemma OwnOrderKeys<K, V>(a: seq<(K, V)>, b: seq<(K, V)>, index: K -> Option<nat>)
    requires KeysOf(a) == KeysOf(b)
    ensures KeysOf(OwnOrder(a, index)) == KeysOf(OwnOrder(b, index))
  {
    IndexEntriesKeys(a, b, index);
    NamedEntriesKeys(a, b, index);
    SortKeys(IndexEntries(a, index), IndexEntries(b, index), index);
    KeysOfConcat(SortBy(IndexEntries(a, index), IndexRank<K, V>(index)), NamedEntries(a, index));
    KeysOfConcat(SortBy(IndexEntries(b, index), IndexRank<K, V>(index)), NamedEntries(b, index));
  }

  lemma KeysOfConcat<K, V>(a: seq<(K, V)>, b: seq<(K, V)>)
    ensures KeysOf(a + b) == KeysOf(a) + KeysOf(b)
  {
    var r := KeysOf(a + b);
    assert forall i :: 0 <= i < |r| ==> r[i] == (KeysOf(a) + KeysOf(b))[i];
  }

  lemma KeysOfHead<K, V>(a: seq<(K, V)>, b: seq<(K, V)>)
    requires KeysOf(a) == KeysOf(b) && |a| > 0
    ensures a[0].0 == b[0].0 && KeysOf(a[1..]) == KeysOf(b[1..])
  {
    assert KeysOf(a)[0] == a[0].0 && KeysOf(b)[0] == b[0].0;
  }

  lemma {:induction false} IndexEntriesKeys<K, V>(a: seq<(K, V)>, b: seq<(K, V)>, index: K -> Option<nat>)
    requires KeysOf(a) == KeysOf(b)
    ensures KeysOf(IndexEntries(a, index)) == KeysOf(IndexEntries(b, index))
  {
    if |a| > 0 {
      KeysOfHead(a, b);
      IndexEntriesKeys(a[1..], b[1..], index);
    }
  }

  lemma {:induction false} NamedEntriesKeys<K, V>(a: seq<(K, V)>, b: seq<(K, V)>, index: K -> Option<nat>)
    requires KeysOf(a) == KeysOf(b)
    ensures KeysOf(NamedEntries(a, index)) == KeysOf(NamedEntries(b, index))
  {
    if |a| > 0 {
      KeysOfHead(a, b);
      NamedEntriesKeys(a[1..], b[1..], index);
    }
  }

  lemma {:induction false} InsertKeys<K, V>(x: (K, V), y: (K, V), s: seq<(K, V)>, t: seq<(K, V)>, index: K -> Option<nat>)
    requires x.0 == y.0 && KeysOf(s) == KeysOf(t)
    ensures KeysOf(Insert(x, s, IndexRank<K, V>(index))) == KeysOf(Insert(y, t, IndexRank<K, V>(index)))
    decreases |s|
  {
    var key := IndexRank<K, V>(index);
    if |s| > 0 {
      KeysOfHead(s, t);
      if key(x) > key(s[0]) {
        InsertKeys(x, y, s[1..], t[1..], index);
        assert Insert(x, s, key) == [s[0]] + Insert(x, s[1..], key);
        assert Insert(y, t, key) == [t[0]] + Insert(y, t[1..], key);
      }
    }
  }

  lemma {:induction false} SortKeys<K, V>(a: seq<(K, V)>, b: seq<(K, V)>, index: K -> Option<nat>)
    requires KeysOf(a) == KeysOf(b)
    ensures KeysOf(SortBy(a, IndexRank<K, V>(index))) == KeysOf(SortBy(b, IndexRank<K, V>(index)))
  {
    if |a| > 0 {
      KeysOfHead(a, b);
      SortKeys(a[1..], b[1..], index);
      var key := IndexRank<K, V>(index);
      InsertKeys(a[0], b[0], SortBy(a[1..], key), SortBy(b[1..], key), index);
    }
  }
}
