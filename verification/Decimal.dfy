/** Unsigned decimal text: the overflow-safe printer of the buffer layer and the strict
    Content-Length parser, both against one positional reading of digits. */
module Decimal {

  import opened Base

  predicate IsDigit(c: char)
  {
    '0' <= c <= '9'
  }

  predicate AllDigits(s: string)
  {
    forall i :: 0 <= i < |s| ==> IsDigit(s[i])
  }

  function DigitValue(c: char): (v: nat)
    requires IsDigit(c)
    ensures v < 10
  {
    c as int - '0' as int
  }

  function DigitChar(d: nat): (c: char)
    requires d < 10
    ensures IsDigit(c) && DigitValue(c) == d
  {
    ('0' as int + d) as char
  }

  /** The number a digit string denotes, read by position. */
  function Value(s: string): nat
    requires AllDigits(s)
  {
    if s == "" then 0 else 10 * Value(s[..|s| - 1]) + DigitValue(s[|s| - 1])
  }

  /** The shortest decimal text of v. */
  function Text(v: nat): string
  {
    if v < 10 then [DigitChar(v)] else Text(v / 10) + [DigitChar(v % 10)]
  }

  /** Text and Value are inverse, and Text writes no leading zero. */
  lemma {:induction false} TextValue(v: nat)
    ensures Text(v) != "" && AllDigits(Text(v)) && Value(Text(v)) == v
    ensures Text(v)[0] == '0' ==> v == 0
  {
    if v >= 10 {
      TextValue(v / 10);
      assert Text(v)[..|Text(v)| - 1] == Text(v / 10);
    } else {
      assert Text(v)[..0] == "";
    }
  }

  lemma TextInjective(v: nat, w: nat)
    requires Text(v) == Text(w)
    ensures v == w
  {
    TextValue(v);
    TextValue(w);
  }

  lemma {:induction false} ValueOfPrefix(s: string, i: nat)
    requires AllDigits(s) && i <= |s|
    ensures Value(s[..i]) <= Value(s)
  {
    if i == |s| {
      assert s[..i] == s;
    } else {
      ValueOfPrefix(s[..|s| - 1], i);
      assert s[..|s| - 1][..i] == s[..i];
    }
  }

  function Pow10(n: nat): (p: nat)
    ensures p >= 1
  {
    if n == 0 then 1 else 10 * Pow10(n - 1)
  }

  lemma TwentyDigits(n: nat)
    requires n == 20
    ensures U64_MAX < Pow10(n)
  {
    assert Pow10(5) == 100_000;
    assert Pow10(10) == 10_000_000_000;
    assert Pow10(15) == 1_000_000_000_000_000;
  }

  /** The digits of v still to be written; none when v is zero. */
  function Ahead(v: nat): string
  {
    if v == 0 then "" else Text(v)
  }

  lemma AheadStep(v: nat, behind: string)
    requires v > 0
    ensures Ahead(v) + behind == Ahead(v / 10) + ([DigitChar(v % 10)] + behind)
  {
    assert Ahead(v) == Ahead(v / 10) + [DigitChar(v % 10)];
  }

  lemma OneDigitFewer(v: nat, i: nat)
    requires 0 < v < Pow10(i)
    ensures i > 0 && v / 10 < Pow10(i - 1) && v / 10 < v
  {
  }

  /** Digits are produced last first into a fixed slot of twenty characters. Any 64-bit value
      fits, so the `i > 0` guard never cuts one short. */
  method FillDigits(tmp: array<char>, v0: nat) returns (i: nat)
    requires tmp.Length == 20 && v0 <= U64_MAX
    modifies tmp
    ensures i <= tmp.Length && tmp[i..] == Ahead(v0)
  {
    var v: nat := v0;
    i := tmp.Length;
    TwentyDigits(i);
    while v > 0 && i > 0
      invariant i <= tmp.Length && v < Pow10(i)
      invariant Ahead(v) + tmp[i..] == Ahead(v0)
      decreases v
    {
      ghost var behind := tmp[i..];
      AheadStep(v, behind);
      OneDigitFewer(v, i);
      i := i - 1;
      tmp[i] := DigitChar(v % 10);
      assert tmp[i..] == [DigitChar(v % 10)] + behind;
      v := v / 10;
    }
    assert i == 0 ==> Pow10(i) == 1;
    assert Ahead(v) + tmp[i..] == tmp[i..];
  }

  method AppendU64(out: string, v: nat) returns (r: string)
    requires v <= U64_MAX
    ensures r == out + Text(v)
  {
    if v == 0 {
      return out + "0";
    }
    var tmp := new char[20];
    var i := FillDigits(tmp, v);
    r := out + tmp[i..];
  }

  /** The strict parser: it accepts exactly the nonempty digit strings below 2^64. */
  method ParseU64Strict(s: string) returns (ok: bool, v: nat)
    ensures ok <==> s != "" && AllDigits(s) && Value(s) <= U64_MAX
    ensures ok ==> v == Value(s)
  {
    v := 0;
    if s == "" {
      return false, 0;
    }
    var i := 0;
    while i < |s|
      invariant i <= |s|
      invariant AllDigits(s[..i]) && v == Value(s[..i]) <= U64_MAX
    {
      if !IsDigit(s[i]) {
        return false, 0;
      }
      var d := DigitValue(s[i]);
      assert s[..i + 1][..i] == s[..i];
      assert Value(s[..i + 1]) == 10 * v + d;
      if v > (U64_MAX - d) / 10 {
        if AllDigits(s) {
          ValueOfPrefix(s, i + 1);
        }
        return false, 0;
      }
      v := v * 10 + d;
      i := i + 1;
    }
    assert s[..i] == s;
    return true, v;
  }
}
