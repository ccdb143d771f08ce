/** Keeping the elements of a list that pass a test, in order. */
module Filter {

  function Keep<T>(s: seq<T>, p: T -> bool): seq<T>
  {
    if s == [] then [] else Keep(s[..|s| - 1], p) + (if p(s[|s| - 1]) then [s[|s| - 1]] else [])
  }

  lemma KeepNext<T>(s: seq<T>, p: T -> bool, i: nat)
    requires i < |s|
    ensures Keep(s[..i + 1], p) == Keep(s[..i], p) + (if p(s[i]) then [s[i]] else [])
  {
    assert s[..i + 1][..i] == s[..i];
  }

  /** What passes, and nothing else. */
  lemma {:induction false} KeepIs<T>(s: seq<T>, p: T -> bool, x: T)
    ensures x in Keep(s, p) <==> x in s && p(x)
  {
    if s != [] {
      KeepIs(s[..|s| - 1], p, x);
      assert s == s[..|s| - 1] + [s[|s| - 1]];
    }
  }

  /** A weaker test first changes nothing. */
  lemma {:induction false} KeepTwice<T>(s: seq<T>, weak: T -> bool, p: T -> bool)
    requires forall x :: x in s && p(x) ==> weak(x)
    ensures Keep(Keep(s, weak), p) == Keep(s, p)
  {
    if s != [] {
      var t, x := s[..|s| - 1], s[|s| - 1];
      KeepTwice(t, weak, p);
      if weak(x) {
        var k := Keep(t, weak) + [x];
        assert k[..|k| - 1] == Keep(t, weak);
      } else {
        assert Keep(s, weak) == Keep(t, weak);
      }
    }
  }

  /** Everything passes exactly when nothing goes. */
  lemma {:induction false} KeepAllIff<T>(s: seq<T>, p: T -> bool)
    ensures |Keep(s, p)| <= |s|
    ensures |Keep(s, p)| == |s| <==> forall x :: x in s ==> p(x)
    ensures |Keep(s, p)| == |s| ==> Keep(s, p) == s
  {
    if s != [] {
      var t, x := s[..|s| - 1], s[|s| - 1];
      KeepAllIff(t, p);
      assert s == t + [x];
    }
  }
}
