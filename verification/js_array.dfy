/** The `Array.prototype` operations the dashboard uses on lists: `filter`, `slice(0, n)` and
    `sort`, which is stable since ECMAScript 2019. Sorting is by a numeric key, ascending, so a
    comparator `(a, b) => f(b) - f(a)` is the key `-f`. */
module JsArray {

  /** `a` is `b` with some elements left out and the rest in the same order. */
  ghost predicate IsSubsequence<T>(a: seq<T>, b: seq<T>)
    decreases |b|
  {
    if |a| == 0 then true
    else if |b| == 0 then false
    else (a[0] == b[0] && IsSubsequence(a[1..], b[1..])) || IsSubsequence(a, b[1..])
  }

  /** `s.filter(p)`: exactly the elements satisfying `p`, each as often as in `s`, in their
      original order. */
  function Filter<T>(s: seq<T>, p: T -> bool): (r: seq<T>)
    ensures |r| <= |s|
    ensures forall i :: 0 <= i < |r| ==> p(r[i])
    ensures forall i :: 0 <= i < |r| ==> r[i] in s
    ensures forall i :: 0 <= i < |s| && p(s[i]) ==> s[i] in r
    ensures IsSubsequence(r, s)
    ensures forall i :: 0 <= i < |s| ==> multiset(r)[s[i]] == if p(s[i]) then multiset(s)[s[i]] else 0
  {
    if |s| == 0 then []
    else
      var rest := Filter(s[1..], p);
      FilterCountStep(s, p, rest);
      if p(s[0]) then
        var r := [s[0]] + rest;
        assert r[1..] == rest;
        r
      else rest
  }

  /** The count part of `Filter`'s contract carries over from the tail to the whole list. */
  lemma FilterCountStep<T>(s: seq<T>, p: T -> bool, rest: seq<T>)
    requires |s| > 0
    requires forall i :: 0 <= i < |rest| ==> rest[i] in s[1..]
    requires forall i :: 0 <= i < |s[1..]| ==>
      multiset(rest)[s[1..][i]] == if p(s[1..][i]) then multiset(s[1..])[s[1..][i]] else 0
    ensures var r := if p(s[0]) then [s[0]] + rest else rest;
      forall i :: 0 <= i < |s| ==> multiset(r)[s[i]] == if p(s[i]) then multiset(s)[s[i]] else 0
  {
    var r := if p(s[0]) then [s[0]] + rest else rest;
    assert s == [s[0]] + s[1..];
    assert multiset(r) == (if p(s[0]) then multiset{s[0]} else multiset{}) + multiset(rest);
    forall i | 0 <= i < |s|
      ensures multiset(r)[s[i]] == if p(s[i]) then multiset(s)[s[i]] else 0
    {
      if s[i] !in s[1..] {
        assert s[i] == s[0];
        assert multiset(rest)[s[i]] == 0;
      } else {
        var j :| 0 <= j < |s[1..]| && s[1..][j] == s[i];
      }
    }
  }

  /** `s.slice(0, n)`. */
  function Take<T>(s: seq<T>, n: nat): (r: seq<T>)
    ensures |r| == if n < |s| then n else |s|
    ensures forall i :: 0 <= i < |r| ==> r[i] == s[i]
  {
    if n < |s| then s[..n] else s
  }

  predicate SortedBy<T>(s: seq<T>, key: T -> real) {
    forall i, j :: 0 <= i < j < |s| ==> key(s[i]) <= key(s[j])
  }

  /** The elements of `s` whose key is `c`, in order. */
  function WithKey<T>(s: seq<T>, key: T -> real, c: real): seq<T> {
    if |s| == 0 then []
    else if key(s[0]) == c then [s[0]] + WithKey(s[1..], key, c)
    else WithKey(s[1..], key, c)
  }

  /** Inserts `x` into `s` in front of the first element whose key is not smaller. */
  function Insert<T>(x: T, s: seq<T>, key: T -> real): (r: seq<T>)
    ensures |r| == |s| + 1
    ensures multiset(r) == multiset(s) + multiset{x}
  {
    if |s| == 0 || key(x) <= key(s[0]) then [x] + s
    else
      assert s == [s[0]] + s[1..];
      [s[0]] + Insert(x, s[1..], key)
  }

  /** Insertion keeps a key-ordered list key-ordered. */
  lemma {:induction false} InsertSorted<T>(x: T, s: seq<T>, key: T -> real)
    requires SortedBy(s, key)
    ensures SortedBy(Insert(x, s, key), key)
    decreases |s|
  {
    if |s| > 0 && key(s[0]) < key(x) {
      SortedTail(s, key);
      InsertSorted(x, s[1..], key);
      InsertAfterHead(x, s, key);
    }
  }

  lemma InsertAfterHead<T>(x: T, s: seq<T>, key: T -> real)
    requires |s| > 0 && key(s[0]) < key(x) && SortedBy(s, key)
    requires SortedBy(Insert(x, s[1..], key), key)
    ensures SortedBy([s[0]] + Insert(x, s[1..], key), key)
  {
    var t := Insert(x, s[1..], key);
    forall j | 0 <= j < |t|
      ensures key(s[0]) <= key(t[j])
    {
      assert t[j] in multiset(t);
      if t[j] != x {
        assert t[j] in multiset(s[1..]);
        var k :| 0 <= k < |s[1..]| && s[1..][k] == t[j];
        assert s[k + 1] == t[j];
      }
    }
    var r := [s[0]] + t;
    forall i, j | 0 <= i < j < |r|
      ensures key(r[i]) <= key(r[j])
    {
      assert r[j] == t[j - 1];
      if i > 0 {
        assert r[i] == t[i - 1];
      }
    }
  }

  /** Insertion puts `x` in front of the elements with its key and leaves the order of every
      key's elements otherwise unchanged. */
  lemma {:induction false} InsertWithKey<T>(x: T, s: seq<T>, key: T -> real, c: real)
    ensures WithKey(Insert(x, s, key), key, c) == (if key(x) == c then [x] else []) + WithKey(s, key, c)
    decreases |s|
  {
    var r := Insert(x, s, key);
    if |s| == 0 || key(x) <= key(s[0]) {
      assert r == [x] + s;
      assert r[1..] == s;
    } else {
      InsertWithKey(x, s[1..], key, c);
      assert r == [s[0]] + Insert(x, s[1..], key);
      assert r[1..] == Insert(x, s[1..], key);
    }
  }

  /** `s.sort((a, b) => key(a) - key(b))`: a permutation of `s`, ordered by key, in which
      elements with equal keys keep their original relative order. */
  function SortBy<T>(s: seq<T>, key: T -> real): (r: seq<T>)
    ensures |r| == |s|
    ensures multiset(r) == multiset(s)
    ensures SortedBy(r, key)
    ensures forall c :: WithKey(r, key, c) == WithKey(s, key, c)
  {
    if |s| == 0 then []
    else
      assert s == [s[0]] + s[1..];
      var t := SortBy(s[1..], key);
      InsertSorted(s[0], t, key);
      assert forall c :: WithKey(Insert(s[0], t, key), key, c) == WithKey(s, key, c) by {
        forall c
          ensures WithKey(Insert(s[0], t, key), key, c) == WithKey(s, key, c)
        {
          InsertWithKey(s[0], t, key, c);
        }
      }
      Insert(s[0], t, key)
  }

  /** A stable sort has only one possible result: two key-ordered lists that agree on the
      order of the elements of every key are equal. So `SortBy` is the outcome of any
      conforming stable `Array.prototype.sort`. */
  lemma {:induction false} StableSortUnique<T>(a: seq<T>, b: seq<T>, key: T -> real)
    requires SortedBy(a, key) && SortedBy(b, key)
    requires forall c :: WithKey(a, key, c) == WithKey(b, key, c)
    ensures a == b
    decreases |a|
  {
    if |a| > 0 {
      WithKeyHead(a, key);
      assert WithKey(b, key, key(a[0])) != [];
    }
    if |b| > 0 {
      WithKeyHead(b, key);
      assert WithKey(a, key, key(b[0])) != [];
    }
    if |a| > 0 {
      var ka, kb := key(a[0]), key(b[0]);
      KeyAtLeastHead(b, key, ka);
      KeyAtLeastHead(a, key, kb);
      assert ka == kb;
      assert a[0] == WithKey(a, key, ka)[0] == WithKey(b, key, ka)[0] == b[0];
      forall c
        ensures WithKey(a[1..], key, c) == WithKey(b[1..], key, c)
      {
        if c == ka {
          assert WithKey(a, key, c) == [a[0]] + WithKey(a[1..], key, c);
          assert WithKey(b, key, c) == [b[0]] + WithKey(b[1..], key, c);
          assert WithKey(a[1..], key, c) == WithKey(a, key, c)[1..];
          assert WithKey(b[1..], key, c) == WithKey(b, key, c)[1..];
        } else {
          assert WithKey(a, key, c) == WithKey(a[1..], key, c);
          assert WithKey(b, key, c) == WithKey(b[1..], key, c);
        }
      }
      SortedTail(a, key);
      SortedTail(b, key);
      StableSortUnique(a[1..], b[1..], key);
      assert a == [a[0]] + a[1..];
      assert b == [b[0]] + b[1..];
    }
  }

  lemma WithKeyHead<T>(s: seq<T>, key: T -> real)
    requires |s| > 0
    ensures WithKey(s, key, key(s[0])) == [s[0]] + WithKey(s[1..], key, key(s[0]))
  {
  }

  /** In a key-ordered list every key present is at least the first one. */
  lemma {:induction false} KeyAtLeastHead<T>(s: seq<T>, key: T -> real, c: real)
    requires |s| > 0 && SortedBy(s, key)
    requires WithKey(s, key, c) != []
    ensures key(s[0]) <= c
    decreases |s|
  {
    if key(s[0]) != c {
      SortedTail(s, key);
      KeyAtLeastHead(s[1..], key, c);
    }
  }

  lemma SortedTail<T>(s: seq<T>, key: T -> real)
    requires |s| > 0 && SortedBy(s, key)
    ensures SortedBy(s[1..], key)
  {
  }
}
