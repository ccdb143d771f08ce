/** A trace detail is copied into a fixed slot, truncated honestly: marked as cut, and never in
    the middle of a character. */
module Trace {
  import opened Utf8

  const MARK: seq<Octet> := [46, 46, 46]

  datatype CStr = Null | Str(s: seq<Octet>)

  /** Where the cut falls: back from k past continuation bytes. */
  function Keep(src: seq<Octet>, k: nat): (r: nat)
    requires k < |src|
    ensures r <= k && (r == 0 || !Continuation(src[r]))
    ensures forall j :: r < j <= k ==> Continuation(src[j])
  {
    if k > 0 && Continuation(src[k]) then Keep(src, k - 1) else k
  }

  /** The text the slot holds afterwards. */
  function Detail(cap: nat, src: seq<Octet>): seq<Octet>
    requires cap > 0
  {
    if |src| < cap then src
    else if cap <= |MARK| + 1 then []
    else src[..Keep(src, cap - 1 - |MARK|)] + MARK
  }

  /** The copy in place. The slot always ends up terminated. */
  method CopyDetail(dst: array<Octet>, src: CStr)
    modifies dst
    ensures dst.Length > 0 ==>
              var d := if src.Null? then [] else Detail(dst.Length, src.s);
              |d| < dst.Length && dst[..|d|] == d && dst[|d|] == 0
  {
    var cap := dst.Length;
    if cap == 0 {
      return;
    }
    if src.Null? {
      dst[0] := 0;
      return;
    }
    var s, n := src.s, |src.s|;
    if n < cap {
      forall i | 0 <= i < n {
        dst[i] := s[i];
      }
      dst[n] := 0;
      return;
    }
    if cap <= |MARK| + 1 {
      dst[0] := 0;
      return;
    }
    var keep := cap - 1 - |MARK|;
    while keep > 0 && Continuation(s[keep])
      invariant 0 <= keep <= cap - 1 - |MARK|
      invariant Keep(s, keep) == Keep(s, cap - 1 - |MARK|)
    {
      keep := keep - 1;
    }
    forall i | 0 <= i < keep {
      dst[i] := s[i];
    }
    dst[keep], dst[keep + 1], dst[keep + 2], dst[keep + 3] := MARK[0], MARK[1], MARK[2], 0;
    assert dst[..keep + 3] == s[..keep] + MARK;
  }

  // ---- why the cut is safe ----

  lemma {:induction false} EncodeAllConcat(a: seq<Scalar>, b: seq<Scalar>)
    ensures EncodeAll(a + b) == EncodeAll(a) + EncodeAll(b)
  {
    if a == [] {
      assert a + b == b;
    } else {
      EncodeAllConcat(a[1..], b);
      assert (a + b)[1..] == a[1..] + b;
      assert Encode(a[0]) + (EncodeAll(a[1..]) + EncodeAll(b)) == Encode(a[0]) + EncodeAll(a[1..]) + EncodeAll(b);
    }
  }

  lemma Utf8Concat(a: seq<Octet>, b: seq<Octet>)
    requires IsUtf8(a) && IsUtf8(b)
    ensures IsUtf8(a + b)
  {
    var x :| EncodeAll(x) == a;
    var y :| EncodeAll(y) == b;
    EncodeAllConcat(x, y);
  }

  lemma EmptyIsUtf8()
    ensures IsUtf8([])
  {
    assert EncodeAll([]) == [];
  }

  lemma CutInside(s: seq<Octet>, k: nat)
    requires s != [] && CharAt(s, 0) && 0 < k <= LeadOf(s[0]).need
    ensures Continuation(s[k]) && !IsUtf8(s[..k])
  {
    var t := s[..k];
    assert t[0] == s[0];
    ValidStep(t);
  }

  lemma CutBeyond(s: seq<Octet>, k: nat)
    requires s != [] && CharAt(s, 0) && LeadOf(s[0]).need < k < |s|
    ensures var n := LeadOf(s[0]).need + 1;
            && (IsUtf8(s[..k]) <==> IsUtf8(s[n..][..k - n]))
            && s[n..][k - n] == s[k] && s[n..][k - n..] == s[k..]
  {
    var t, n := s[..k], LeadOf(s[0]).need + 1;
    assert t[0] == s[0] && CharAt(t, 0);
    ValidStep(t);
    assert t[n..] == s[n..][..k - n];
  }

  /** In valid text the character boundaries are exactly the bytes that do not continue one, and
      a cut at a boundary leaves two valid texts. */
  lemma {:induction false} BoundaryIff(s: seq<Octet>, k: nat)
    requires IsUtf8(s) && k < |s|
    ensures IsUtf8(s[..k]) <==> !Continuation(s[k])
    ensures !Continuation(s[k]) ==> IsUtf8(s[k..])
    decreases |s|
  {
    ValidStep(s);
    EmptyIsUtf8();
    if k == 0 {
      assert s[..k] == [] && s[k..] == s;
    } else if k <= LeadOf(s[0]).need {
      CutInside(s, k);
    } else {
      CutBeyond(s, k);
      var n := LeadOf(s[0]).need + 1;
      BoundaryIff(s[n..], k - n);
    }
  }

  lemma MarkIsUtf8()
    ensures IsUtf8(MARK)
  {
    var dots: seq<Scalar> := [46, 46, 46];
    assert dots[1..] == [46, 46] && dots[1..][1..] == [46] && dots[1..][1..][1..] == [];
    assert Encode(46) == [46];
    assert EncodeAll(dots[1..][1..]) == [46];
    assert EncodeAll(dots[1..]) == [46, 46];
    assert EncodeAll(dots) == MARK;
  }

  lemma KeepIsBoundary(src: seq<Octet>, k: nat)
    requires IsUtf8(src) && k < |src|
    ensures var r := Keep(src, k);
            && IsUtf8(src[..r]) && IsUtf8(src[r..])
            && (forall j :: r < j <= k ==> !IsUtf8(src[..j]))
  {
    var r := Keep(src, k);
    ValidStep(src);
    assert !Continuation(src[0]);
    BoundaryIff(src, r);
    forall j | r < j <= k
      ensures !IsUtf8(src[..j])
    {
      BoundaryIff(src, j);
    }
  }

  /** Any valid text stays valid and shorter than the slot: it is the whole input, or nothing when
      the slot cannot hold the mark, or the longest run of whole characters that leaves room for
      the mark, and the mark. */
  lemma DetailIsHonest(cap: nat, src: seq<Octet>)
    requires cap > 0 && IsUtf8(src)
    ensures IsUtf8(Detail(cap, src)) && |Detail(cap, src)| < cap
    ensures |src| < cap ==> Detail(cap, src) == src
    ensures |src| >= cap && cap <= 4 ==> Detail(cap, src) == []
    ensures |src| >= cap && cap > 4 ==>
              var k := |Detail(cap, src)| - 3;
              && 0 <= k <= cap - 4 && Detail(cap, src) == src[..k] + MARK
              && IsUtf8(src[..k]) && IsUtf8(src[k..])
              && forall j :: k < j <= cap - 4 ==> !IsUtf8(src[..j])
  {
    EmptyIsUtf8();
    if |src| >= cap && cap > 4 {
      var k := Keep(src, cap - 4);
      assert Detail(cap, src) == src[..k] + MARK && |src[..k] + MARK| == k + 3;
      KeepIsBoundary(src, cap - 4);
      MarkIsUtf8();
      Utf8Concat(src[..k], MARK);
    }
  }
}
