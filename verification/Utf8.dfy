/** UTF-8 (section 4 of RFC 3629): the validator accepts exactly the encodings of sequences of
    Unicode scalar values, and truncation for the trace log never splits one. */
module Utf8 {

  type Octet = b: int | 0 <= b < 256

  /** Unicode scalar values: code points that are not surrogates. */
  type Scalar = c: int | (0 <= c < 0xD800) || (0xE000 <= c < 0x110000)

  /** The bit distribution of section 3, as arithmetic. */
  function Encode(c: Scalar): (r: seq<Octet>)
    ensures 1 <= |r| <= 4
  {
    if c < 0x80 then [c]
    else if c < 0x800 then [0xC0 + c / 64, 0x80 + c % 64]
    else if c < 0x10000 then [0xE0 + c / 4096, 0x80 + c / 64 % 64, 0x80 + c % 64]
    else [0xF0 + c / 262144, 0x80 + c / 4096 % 64, 0x80 + c / 64 % 64, 0x80 + c % 64]
  }

  function EncodeAll(cs: seq<Scalar>): seq<Octet>
  {
    if cs == [] then [] else Encode(cs[0]) + EncodeAll(cs[1..])
  }

  ghost predicate IsUtf8(s: seq<Octet>)
  {
    exists cs :: EncodeAll(cs) == s
  }

  predicate Continuation(b: Octet)
  {
    0x80 <= b <= 0xBF
  }

  /** Continuation bytes a lead byte calls for, and the range of the first of them. */
  datatype Lead = Bad | Lead(need: nat, lo: int, hi: int)

  function LeadOf(b: Octet): Lead
  {
    if b < 0x80 then Lead(0, 0x80, 0xBF)
    else if 0xC2 <= b <= 0xDF then Lead(1, 0x80, 0xBF)
    else if b == 0xE0 then Lead(2, 0xA0, 0xBF)
    else if b == 0xED then Lead(2, 0x80, 0x9F)
    else if 0xE1 <= b <= 0xEF then Lead(2, 0x80, 0xBF)
    else if b == 0xF0 then Lead(3, 0x90, 0xBF)
    else if b == 0xF4 then Lead(3, 0x80, 0x8F)
    else if 0xF1 <= b <= 0xF3 then Lead(3, 0x80, 0xBF)
    else Bad
  }

  /** A whole character stands at position i. */
  predicate CharAt(s: seq<Octet>, i: nat)
    requires i < |s|
  {
    var l := LeadOf(s[i]);
    && l.Lead? && i + l.need < |s|
    && (l.need >= 1 ==> l.lo <= s[i + 1] <= l.hi)
    && (l.need >= 2 ==> Continuation(s[i + 2]))
    && (l.need >= 3 ==> Continuation(s[i + 3]))
  }

  /** Every scalar's encoding is a whole character, as long as its lead byte says. */
  lemma EncodedIsChar(c: Scalar, rest: seq<Octet>)
    ensures var s := Encode(c) + rest;
            CharAt(s, 0) && LeadOf(s[0]).need + 1 == |Encode(c)|
    ensures forall i :: 1 <= i < |Encode(c)| ==> Continuation(Encode(c)[i])
    ensures !Continuation(Encode(c)[0])
  {
    var s := Encode(c) + rest;
    assert forall i :: 0 <= i < |Encode(c)| ==> s[i] == Encode(c)[i];
  }

  /** The scalar a whole character stands for. */
  function Decode(s: seq<Octet>): (c: int)
    requires s != [] && CharAt(s, 0)
  {
    var n := LeadOf(s[0]).need;
    if n == 0 then s[0]
    else if n == 1 then Two(s[0] - 0xC0, s[1] - 0x80)
    else if n == 2 then Three(s[0] - 0xE0, s[1] - 0x80, s[2] - 0x80)
    else Four(s[0] - 0xF0, s[1] - 0x80, s[2] - 0x80, s[3] - 0x80)
  }

  function Two(a: int, b: int): int { a * 64 + b }
  function Three(a: int, b: int, c: int): int { a * 4096 + b * 64 + c }
  function Four(a: int, b: int, c: int, d: int): int { a * 262144 + b * 4096 + c * 64 + d }

  lemma Digits2(a: int, b: int)
    requires 0 <= a && 0 <= b < 64
    ensures Two(a, b) / 64 == a && Two(a, b) % 64 == b
  {
  }

  lemma Digits3(a: int, b: int, c: int)
    requires 0 <= a && 0 <= b < 64 && 0 <= c < 64
    ensures var x := Three(a, b, c); x / 4096 == a && x / 64 % 64 == b && x % 64 == c
  {
    Digits2(a * 64 + b, c);
    Digits2(a, b);
  }

  lemma Digits4(a: int, b: int, c: int, d: int)
    requires 0 <= a && 0 <= b < 64 && 0 <= c < 64 && 0 <= d < 64
    ensures var x := Four(a, b, c, d); x / 262144 == a && x / 4096 % 64 == b && x / 64 % 64 == c && x % 64 == d
  {
    Digits3(a * 64 + b, c, d);
    Digits2(a, b);
  }

  predicate InRange(c: int)
  {
    (0 <= c < 0xD800) || (0xE000 <= c < 0x110000)
  }

  lemma DecodedIsScalar(s: seq<Octet>)
    requires s != [] && CharAt(s, 0)
    ensures InRange(Decode(s)) && Encode(Decode(s)) == s[..LeadOf(s[0]).need + 1]
  {
    var n := LeadOf(s[0]).need;
    var c := Decode(s);
    if n == 1 {
      Digits2(s[0] - 0xC0, s[1] - 0x80);
      assert 0x80 <= c < 0x800;
    } else if n == 2 {
      Digits3(s[0] - 0xE0, s[1] - 0x80, s[2] - 0x80);
      assert 0x800 <= c < 0x10000 && InRange(c);
    } else if n == 3 {
      Digits4(s[0] - 0xF0, s[1] - 0x80, s[2] - 0x80, s[3] - 0x80);
      assert 0x10000 <= c < 0x110000;
    }
  }

  /** Validity is decided character by character. */
  lemma ValidStep(s: seq<Octet>)
    requires s != []
    ensures IsUtf8(s) <==> CharAt(s, 0) && IsUtf8(s[LeadOf(s[0]).need + 1..])
  {
    if IsUtf8(s) {
      var cs :| EncodeAll(cs) == s;
      EncodedIsChar(cs[0], EncodeAll(cs[1..]));
      assert s[|Encode(cs[0])|..] == EncodeAll(cs[1..]);
    }
    if CharAt(s, 0) && IsUtf8(s[LeadOf(s[0]).need + 1..]) {
      var k := LeadOf(s[0]).need + 1;
      var cs :| EncodeAll(cs) == s[k..];
      DecodedIsScalar(s);
      var c: Scalar := Decode(s);
      assert ([c] + cs)[1..] == cs;
      assert EncodeAll([c] + cs) == s[..k] + s[k..] == s;
    }
  }

  lemma CharAtShift(s: seq<Octet>, i: nat)
    requires i < |s|
    ensures CharAt(s, i) <==> CharAt(s[i..], 0)
  {
  }

  /** The validating loop. */
  method Valid(s: seq<Octet>) returns (ok: bool)
    ensures ok <==> IsUtf8(s)
  {
    var i := 0;
    assert s[0..] == s;
    while i < |s|
      invariant 0 <= i <= |s|
      invariant IsUtf8(s) <==> IsUtf8(s[i..])
      decreases |s| - i
    {
      CharAtShift(s, i);
      ValidStep(s[i..]);
      var l := LeadOf(s[i]);
      if l.Bad? || |s| - i - 1 < l.need {
        return false;
      }
      if l.need >= 1 && !(l.lo <= s[i + 1] <= l.hi) {
        return false;
      }
      var k := 2;
      while k <= l.need
        invariant 2 <= k
        invariant forall j :: i + 2 <= j < i + k && j <= i + l.need ==> Continuation(s[j])
      {
        if !Continuation(s[i + k]) {
          assert !CharAt(s, i);
          return false;
        }
        k := k + 1;
      }
      assert CharAt(s, i);
      assert s[i..][l.need + 1..] == s[i + l.need + 1..];
      i := i + l.need + 1;
    }
    assert EncodeAll([]) == s[i..];
    return true;
  }
}
