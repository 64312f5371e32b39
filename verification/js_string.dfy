/** The few `String.prototype` operations the dashboard relies on: `trim`, `split` on one
    character, `split(/\s+/)` and `Array.prototype.join`. Strings are sequences of code points;
    the whitespace set is the one ECMAScript uses for both `trim` and the regular-expression
    class `\s` (WhiteSpace and LineTerminator). */
module JsString {

  /** ECMAScript WhiteSpace or LineTerminator. */
  predicate IsWhite(c: char) {
    || c == '\t' || c == '\n' || c == '\U{B}' || c == '\U{C}' || c == '\r' || c == ' '
    || c == '\U{A0}' || c == '\U{1680}' || ('\U{2000}' <= c <= '\U{200A}')
    || c == '\U{2028}' || c == '\U{2029}' || c == '\U{202F}' || c == '\U{205F}'
    || c == '\U{3000}' || c == '\U{FEFF}'
  }

  predicate AllWhite(s: string) {
    forall i :: 0 <= i < |s| ==> IsWhite(s[i])
  }

  predicate NoWhite(s: string) {
    forall i :: 0 <= i < |s| ==> !IsWhite(s[i])
  }

  /** Neither end of `s` is whitespace: `s` is its own `trim()`. */
  predicate Trimmed(s: string) {
    |s| == 0 || (!IsWhite(s[0]) && !IsWhite(s[|s| - 1]))
  }

  /** `trimStart()`: the suffix left after dropping the leading whitespace. */
  function TrimStart(s: string): (r: string)
    ensures |r| <= |s| && r == s[|s| - |r|..]
    ensures |r| == 0 || !IsWhite(r[0])
    ensures AllWhite(s[..|s| - |r|])
  {
    if |s| > 0 && IsWhite(s[0]) then TrimStart(s[1..]) else s
  }

  /** `trimEnd()`: the prefix left after dropping the trailing whitespace. */
  function TrimEnd(s: string): (r: string)
    ensures |r| <= |s| && r == s[..|r|]
    ensures |r| == 0 || !IsWhite(r[|r| - 1])
    ensures AllWhite(s[|r|..])
  {
    if |s| > 0 && IsWhite(s[|s| - 1]) then TrimEnd(s[..|s| - 1]) else s
  }

  /** Leading whitespace in front of `s` is all `trimStart` removes from it. */
  lemma {:induction false} TrimStartSkipsWhite(w: string, s: string)
    requires AllWhite(w)
    ensures TrimStart(w + s) == TrimStart(s)
    decreases |w|
  {
    if |w| == 0 {
      assert w + s == s;
    } else {
      var ws := w + s;
      assert ws[0] == w[0];
      assert ws[1..] == w[1..] + s;
      TrimStartSkipsWhite(w[1..], s);
    }
  }

  /** The number of leading whitespace characters of `s`. */
  function LeadingWhite(s: string): (n: nat)
    ensures n <= |s|
  {
    |s| - |TrimStart(s)|
  }

  /** `s[i..j]` is what is left of `s` once whitespace-only ends are dropped. */
  predicate WhiteOutside(s: string, i: nat, j: nat) {
    && i <= j <= |s|
    && AllWhite(s[..i])
    && AllWhite(s[j..])
  }

  /** `trim()`. */
  function Trim(s: string): string {
    TrimEnd(TrimStart(s))
  }

  /** `trim()` gives the piece of `s` starting after its leading whitespace, with no
      whitespace at either end, obtained by dropping only whitespace. */
  lemma {:induction false} TrimShape(s: string)
    ensures Trimmed(Trim(s))
    ensures WhiteOutside(s, LeadingWhite(s), LeadingWhite(s) + |Trim(s)|)
    ensures Trim(s) == s[LeadingWhite(s)..LeadingWhite(s) + |Trim(s)|]
  {
    TrimEnds(s);
    TrimOutside(s);
    TrimSlice(s);
  }

  lemma TrimEnds(s: string)
    ensures Trimmed(Trim(s))
  {
    var t := TrimStart(s);
    var r := TrimEnd(t);
    if |r| > 0 {
      assert r[0] == t[0];
    }
  }

  lemma TrimOutside(s: string)
    ensures WhiteOutside(s, LeadingWhite(s), LeadingWhite(s) + |Trim(s)|)
  {
    var t := TrimStart(s);
    var r := TrimEnd(t);
    var i := |s| - |t|;
    assert s[i + |r|..] == t[|r|..];
  }

  lemma TrimSlice(s: string)
    ensures Trim(s) == s[LeadingWhite(s)..LeadingWhite(s) + |Trim(s)|]
  {
    var t := TrimStart(s);
    var r := TrimEnd(t);
    var i := |s| - |t|;
    assert t == s[i..] && r == t[..|r|];
  }

  /** Nothing but whitespace is removed by `trim`, so a character absent from `s` is absent
      from `trim(s)`. */
  lemma {:induction false} TrimSubstring(s: string, c: char)
    requires c !in s
    ensures c !in Trim(s)
  {
    var r := Trim(s);
    var i := LeadingWhite(s);
    TrimShape(s);
    assert forall k :: 0 <= k < |r| ==> r[k] == s[i + k];
  }

  /** `trim` changes nothing on a string that is already trimmed, hence it is idempotent. */
  lemma TrimOfTrimmed(s: string)
    requires Trimmed(s)
    ensures Trim(s) == s
  {
    var r := Trim(s);
    var i := LeadingWhite(s);
    TrimShape(s);
    if |s| > 0 {
      assert !IsWhite(s[0]);
      assert i == 0;
      assert !IsWhite(s[|s| - 1]);
      assert |r| == |s|;
    }
  }

  /** `xs.join(sep)` with a one-character separator; the empty list joins to `""`. */
  function Join(xs: seq<string>, sep: char): string {
    if |xs| == 0 then ""
    else if |xs| == 1 then xs[0]
    else xs[0] + [sep] + Join(xs[1..], sep)
  }

  /** `s.split(sep)` with a one-character separator: at least one piece, no piece holds the
      separator, and joining the pieces back gives `s`. */
  function Split(s: string, sep: char): (r: seq<string>)
    ensures |r| >= 1
    ensures forall i :: 0 <= i < |r| ==> sep !in r[i]
    ensures Join(r, sep) == s
    decreases |s|
  {
    if |s| == 0 then [""]
    else
      var rest := Split(s[1..], sep);
      if s[0] == sep then
        assert ([""] + rest)[1..] == rest;
        [""] + rest
      else
        var r := [[s[0]] + rest[0]] + rest[1..];
        assert r[1..] == rest[1..];
        assert sep !in r[0];
        r
  }

  /** A piece free of the separator stays whole, and the first separator ends it. */
  lemma SplitAfterPiece(a: string, sep: char, rest: string)
    requires sep !in a
    ensures Split(a + [sep] + rest, sep) == [a] + Split(rest, sep)
    ensures Split(a, sep) == [a]
  {
    SplitPieceThenSep(a, sep, rest);
    SplitOfPiece(a, sep);
  }

  lemma {:induction false} SplitPieceThenSep(a: string, sep: char, rest: string)
    requires sep !in a
    ensures Split(a + [sep] + rest, sep) == [a] + Split(rest, sep)
    decreases |a|
  {
    var x := a + [sep] + rest;
    if |a| == 0 {
      assert x == [sep] + rest;
      assert x[1..] == rest;
    } else {
      var y := a[1..] + [sep] + rest;
      assert x == [a[0]] + y;
      SplitPieceThenSep(a[1..], sep, rest);
      SplitCons(a[0], y, sep);
      assert [a[0]] + a[1..] == a;
    }
  }

  /** A character other than the separator joins the first piece of what follows it. */
  lemma SplitCons(c: char, t: string, sep: char)
    requires c != sep
    ensures Split([c] + t, sep) == [[c] + Split(t, sep)[0]] + Split(t, sep)[1..]
  {
    assert ([c] + t)[1..] == t;
  }

  lemma {:induction false} SplitOfPiece(a: string, sep: char)
    requires sep !in a
    ensures Split(a, sep) == [a]
    decreases |a|
  {
    if |a| > 0 {
      SplitOfPiece(a[1..], sep);
      assert a[0] != sep;
      assert [a[0]] + a[1..] == a;
    }
  }

  /** The other round trip: splitting a join of separator-free pieces returns the pieces. */
  lemma {:induction false} SplitOfJoin(xs: seq<string>, sep: char)
    requires |xs| >= 1
    requires forall i :: 0 <= i < |xs| ==> sep !in xs[i]
    ensures Split(Join(xs, sep), sep) == xs
    decreases |xs|
  {
    if |xs| == 1 {
      SplitAfterPiece(xs[0], sep, "");
    } else {
      SplitOfJoin(xs[1..], sep);
      SplitAfterPiece(xs[0], sep, Join(xs[1..], sep));
    }
  }

  /** Every character of a piece occurs in the joined string. */
  lemma {:induction false} JoinKeepsPieces(xs: seq<string>, sep: char, i: nat, c: char)
    requires i < |xs| && c in xs[i]
    ensures c in Join(xs, sep)
    decreases |xs|
  {
    if |xs| > 1 {
      var rest := Join(xs[1..], sep);
      assert Join(xs, sep) == xs[0] + [sep] + rest;
      if i > 0 {
        JoinKeepsPieces(xs[1..], sep, i - 1, c);
      }
    }
  }

  /** A character absent from `s` is absent from every piece `s.split(sep)` returns. */
  lemma SplitPiecesAvoid(s: string, sep: char, c: char)
    requires c !in s
    ensures forall i :: 0 <= i < |Split(s, sep)| ==> c !in Split(s, sep)[i]
  {
    var r := Split(s, sep);
    forall i | 0 <= i < |r|
      ensures c !in r[i]
    {
      if c in r[i] {
        JoinKeepsPieces(r, sep, i, c);
      }
    }
  }

  /** The characters of `s` that are not whitespace, in order. */
  function RemoveWhite(s: string): string {
    if |s| == 0 then ""
    else if IsWhite(s[0]) then RemoveWhite(s[1..])
    else [s[0]] + RemoveWhite(s[1..])
  }

  function Concat(xs: seq<string>): string {
    if |xs| == 0 then "" else xs[0] + Concat(xs[1..])
  }

  /** `s.split(/\s+/)`: the pieces between maximal whitespace runs, with an empty first
      (last) piece when `s` starts (ends) with whitespace, and `[""]` for `""`. */
  function SplitWhite(s: string): (r: seq<string>)
    ensures |r| >= 1
    ensures forall i :: 0 <= i < |r| ==> NoWhite(r[i])
    ensures Concat(r) == RemoveWhite(s)
    ensures |s| > 0 ==> (r[0] == "" <==> IsWhite(s[0]))
    ensures forall i :: 0 < i < |r| - 1 ==> r[i] != ""
    decreases |s|
  {
    if |s| == 0 then [""]
    else if IsWhite(s[0]) then
      var t := TrimStart(s);
      var rest := SplitWhite(t);
      RemoveWhiteOfPrefix(s, |s| - |t|);
      ConcatCons("", rest);
      [""] + rest
    else
      var rest := SplitWhite(s[1..]);
      ConcatGlue(s[0], rest);
      [[s[0]] + rest[0]] + rest[1..]
  }

  /** A piece without whitespace is not split. */
  lemma {:induction false} SplitWhiteOfPiece(x: string)
    requires NoWhite(x)
    ensures SplitWhite(x) == [x]
    decreases |x|
  {
    if |x| > 0 {
      SplitWhiteOfPiece(x[1..]);
      assert [x[0]] + x[1..] == x;
    }
  }

  /** Text without whitespace in front of a whitespace run becomes part of the run's first
      piece. */
  lemma {:induction false} SplitWhiteGlue(x: string, t: string)
    requires NoWhite(x) && |t| > 0 && IsWhite(t[0])
    ensures SplitWhite(x + t) == [x + SplitWhite(t)[0]] + SplitWhite(t)[1..]
    decreases |x|
  {
    if |x| == 0 {
      var st := SplitWhite(t);
      assert x + t == t;
      assert x + st[0] == st[0];
      assert [st[0]] + st[1..] == st;
    } else {
      var xt := x + t;
      var st := SplitWhite(t);
      assert xt[0] == x[0] && !IsWhite(xt[0]);
      assert xt[1..] == x[1..] + t;
      SplitWhiteGlue(x[1..], t);
      var rest := SplitWhite(xt[1..]);
      assert rest == [x[1..] + st[0]] + st[1..];
      assert SplitWhite(xt) == [[x[0]] + rest[0]] + rest[1..];
      assert rest[0] == x[1..] + st[0] && rest[1..] == st[1..];
      assert [x[0]] + (x[1..] + st[0]) == x + st[0];
    }
  }

  /** A whitespace run at the front becomes one empty piece. */
  lemma SplitWhiteOfRun(w: string, u: string)
    requires |w| > 0 && AllWhite(w)
    requires |u| == 0 || !IsWhite(u[0])
    ensures SplitWhite(w + u) == [""] + SplitWhite(u)
  {
    var wu := w + u;
    assert wu[0] == w[0];
    TrimStartSkipsWhite(w, u);
  }

  /** `split(/\s+/)` breaks at every maximal whitespace run, and only there: whitespace-free
      text, then a whitespace run, then text that does not start with whitespace, splits into
      the first text and the pieces of the rest. */
  lemma SplitWhiteBreak(x: string, w: string, u: string)
    requires NoWhite(x)
    requires |w| > 0 && AllWhite(w)
    requires |u| == 0 || !IsWhite(u[0])
    ensures SplitWhite(x + w + u) == [x] + SplitWhite(u)
  {
    assert x + w + u == x + (w + u);
    assert (w + u)[0] == w[0];
    SplitWhiteGlue(x, w + u);
    SplitWhiteOfRun(w, u);
    assert x + "" == x;
  }

  /** Splitting at whitespace undoes a join of non-empty whitespace-free words with a
      whitespace separator. */
  lemma {:induction false} SplitWhiteOfJoin(xs: seq<string>, sep: char)
    requires |xs| > 0 && IsWhite(sep)
    requires forall i :: 0 <= i < |xs| ==> xs[i] != "" && NoWhite(xs[i])
    ensures SplitWhite(Join(xs, sep)) == xs
    decreases |xs|
  {
    if |xs| == 1 {
      SplitWhiteOfPiece(xs[0]);
    } else {
      var rest := Join(xs[1..], sep);
      SplitWhiteOfJoin(xs[1..], sep);
      JoinHead(xs[1..], sep);
      SplitWhiteBreak(xs[0], [sep], rest);
      assert [xs[0]] + xs[1..] == xs;
    }
  }

  /** A join starts with its first piece. */
  lemma JoinHead(xs: seq<string>, sep: char)
    requires |xs| > 0 && |xs[0]| > 0
    ensures |Join(xs, sep)| > 0 && Join(xs, sep)[0] == xs[0][0]
  {
  }

  lemma ConcatCons(x: string, xs: seq<string>)
    ensures Concat([x] + xs) == x + Concat(xs)
  {
    assert ([x] + xs)[1..] == xs;
  }

  lemma ConcatGlue(c: char, xs: seq<string>)
    requires |xs| >= 1
    ensures Concat([[c] + xs[0]] + xs[1..]) == [c] + Concat(xs)
  {
    ConcatCons([c] + xs[0], xs[1..]);
  }

  /** Dropping a whitespace prefix does not change the non-whitespace content. */
  lemma {:induction false} RemoveWhiteOfPrefix(s: string, k: nat)
    requires k <= |s|
    requires AllWhite(s[..k])
    ensures RemoveWhite(s) == RemoveWhite(s[k..])
    decreases k
  {
    if k > 0 {
      assert s[1..][..k - 1] == s[..k][1..];
      RemoveWhiteOfPrefix(s[1..], k - 1);
      assert s[1..][k - 1..] == s[k..];
    }
  }
}
