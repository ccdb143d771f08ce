/** ASCII text: the case-insensitive comparison every name, scheme and host goes through, and
    cutting at a separator. */
module Ascii {

  function Lower(c: char): (r: char)
  {
    if 'A' <= c <= 'Z' then (c as int + 32) as char else c
  }

  function LowerAll(s: string): (r: string)
    ensures |r| == |s|
    ensures forall i :: 0 <= i < |s| ==> r[i] == Lower(s[i])
  {
    seq(|s|, i requires 0 <= i < |s| => Lower(s[i]))
  }

  /** Equality up to ASCII case. Being equality of a canonical form, it is an equivalence. */
  predicate CaseEq(a: string, b: string)
  {
    LowerAll(a) == LowerAll(b)
  }

  /** A string the URI parser has already lower-cased. */
  predicate IsLower(s: string)
  {
    LowerAll(s) == s
  }

  /** The shorter text first, then the one that is smaller where they first differ. */
  ghost predicate Before(a: string, b: string)
  {
    || |a| < |b|
    || (|a| == |b| && exists i :: 0 <= i < |a| && Lower(a[i]) < Lower(b[i]) && LowerAll(a)[..i] == LowerAll(b)[..i])
  }

  /** The three-way comparison loop. */
  method CaseCompare(a: string, b: string) returns (r: int)
    ensures r == 0 || r == -1 || r == 1
    ensures r == 0 <==> CaseEq(a, b)
    ensures r == -1 ==> Before(a, b)
    ensures r == 1 ==> Before(b, a)
  {
    if |a| != |b| {
      return if |a| < |b| then -1 else 1;
    }
    var i := 0;
    while i < |a|
      invariant i <= |a|
      invariant forall j :: 0 <= j < i ==> Lower(a[j]) == Lower(b[j])
    {
      var ca, cb := Lower(a[i]), Lower(b[i]);
      if ca != cb {
        assert LowerAll(a)[i] != LowerAll(b)[i];
        assert LowerAll(a)[..i] == LowerAll(b)[..i];
        return if ca < cb then -1 else 1;
      }
      i := i + 1;
    }
    return 0;
  }

  /** Two texts cut at the first separator agree on both sides of it. */
  lemma CutAtSeparator(p: string, x: string, q: string, y: string, sep: char)
    requires sep !in p && sep !in q
    requires p + [sep] + x == q + [sep] + y
    ensures p == q && x == y
  {
    var w := p + [sep] + x;
    assert w[|p|] == sep && w[|q|] == sep;
    assert forall i :: 0 <= i < |p| ==> w[i] == p[i];
    assert forall i :: 0 <= i < |q| ==> w[i] == q[i];
    assert w[..|p|] == p && w[..|q|] == q;
    assert w[|p| + 1..] == x && w[|q| + 1..] == y;
  }

  /** And at the last one. */
  lemma CutAtLastSeparator(p: string, x: string, q: string, y: string, sep: char)
    requires sep !in x && sep !in y
    requires p + [sep] + x == q + [sep] + y
    ensures p == q && x == y
  {
    var w := p + [sep] + x;
    assert w[|p|] == sep && w[|q|] == sep;
    assert forall i :: |p| < i < |w| ==> w[i] == x[i - |p| - 1];
    assert forall i :: |q| < i < |w| ==> w[i] == y[i - |q| - 1];
    assert w[..|p|] == p && w[..|q|] == q;
    assert w[|p| + 1..] == x && w[|q| + 1..] == y;
  }
}
