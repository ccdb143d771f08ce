/** Secret redaction: one policy for header names, query parameters and whole URLs, working on
    text that may not even parse. */
module Redact {
  import opened Ascii
  import Base

  datatype Policy = Policy(extraHeaders: seq<string>, extraParams: seq<string>)

  const HEADERS: seq<string> := [
    "authorization", "proxy-authorization", "cookie", "set-cookie", "x-api-key", "x-auth-token"
  ]

  const PARAMS: seq<string> := [
    "access_token", "api_key", "apikey", "signature", "sig", "client_secret", "password", "passwd",
    "pwd", "secret", "token", "refresh_token", "id_token", "private_key", "auth_token", "session_token"
  ]

  const REDACTED: string := "<redacted>"

  predicate Listed(list: seq<string>, name: string)
  {
    exists i :: 0 <= i < |list| && CaseEq(name, list[i])
  }

  method InList(list: seq<string>, name: string) returns (found: bool)
    ensures found <==> Listed(list, name)
  {
    var i := 0;
    while i < |list|
      invariant 0 <= i <= |list|
      invariant forall j :: 0 <= j < i ==> !CaseEq(name, list[j])
    {
      var c := CaseCompare(name, list[i]);
      if c == 0 {
        return true;
      }
      i := i + 1;
    }
    return false;
  }

  predicate SecretHeader(p: Policy, name: string)
  {
    name != "" && (Listed(HEADERS, name) || Listed(p.extraHeaders, name))
  }

  predicate ParamListed(p: Policy, name: string)
  {
    Listed(PARAMS, name) || Listed(p.extraParams, name)
  }

  /** The header names that are secret: six, and the configured ones. */
  lemma SecretHeaders(p: Policy, name: string)
    ensures SecretHeader(p, name) <==>
      && name != ""
      && (|| CaseEq(name, "authorization") || CaseEq(name, "proxy-authorization") || CaseEq(name, "cookie")
          || CaseEq(name, "set-cookie") || CaseEq(name, "x-api-key") || CaseEq(name, "x-auth-token")
          || exists i :: 0 <= i < |p.extraHeaders| && CaseEq(name, p.extraHeaders[i]))
  {
    var h := HEADERS;
    assert Listed(h, name) <==>
      CaseEq(name, h[0]) || CaseEq(name, h[1]) || CaseEq(name, h[2]) || CaseEq(name, h[3]) || CaseEq(name, h[4])
      || CaseEq(name, h[5]);
  }

  // ---- parameter names: raw, or as a server decodes them ----

  predicate IsHex(c: char)
  {
    '0' <= c <= '9' || 'a' <= c <= 'f' || 'A' <= c <= 'F'
  }

  function HexValue(c: char): (v: nat)
    requires IsHex(c)
    ensures v < 16
  {
    if '0' <= c <= '9' then c as int - '0' as int
    else if 'a' <= c <= 'f' then c as int - 'a' as int + 10
    else c as int - 'A' as int + 10
  }

  predicate EscapeAt(s: string, i: nat)
  {
    i + 2 < |s| && s[i] == '%' && IsHex(s[i + 1]) && IsHex(s[i + 2])
  }

  function Unescape(s: string, i: nat): char
    requires EscapeAt(s, i)
  {
    (HexValue(s[i + 1]) * 16 + HexValue(s[i + 2])) as char
  }

  /** Percent-decoding from position i on; what is no escape stands for itself. */
  function Decode(s: string, i: nat): string
    requires i <= |s|
    decreases |s| - i
  {
    if i == |s| then ""
    else if EscapeAt(s, i) then [Unescape(s, i)] + Decode(s, i + 3)
    else [s[i]] + Decode(s, i + 1)
  }

  const DECODE_CAP: nat := 128

  /** What makes a parameter's value a secret: its name, as written or as decoded. */
  predicate SecretParam(p: Policy, name: string)
  {
    name != "" && (ParamListed(p, name) || (|Decode(name, 0)| <= DECODE_CAP && ParamListed(p, Decode(name, 0))))
  }

  lemma {:induction false} DecodeWithoutEscapes(s: string, i: nat)
    requires i <= |s| && '%' !in s
    ensures Decode(s, i) == s[i..]
    decreases |s| - i
  {
    if i < |s| {
      DecodeWithoutEscapes(s, i + 1);
    }
  }

  /** One way to write a character: as it is, or escaped, with either case for each digit. */
  datatype Spelling = AsIs | Escaped(upper1: bool, upper2: bool)

  function HexDigit(v: nat, upper: bool): (c: char)
    requires v < 16
    ensures IsHex(c)
  {
    if v < 10 then ('0' as int + v) as char
    else if upper then ('A' as int + v - 10) as char else ('a' as int + v - 10) as char
  }

  /** Any byte can be escaped, and the escape character must be. */
  predicate Spells(c: char, how: Spelling)
  {
    if how.AsIs? then c != '%' else c as int < 256
  }

  function SpellOne(c: char, how: Spelling): string
    requires Spells(c, how)
  {
    if how.AsIs? then [c] else ['%', HexDigit(c as int / 16, how.upper1), HexDigit(c as int % 16, how.upper2)]
  }

  function Spell(s: string, how: seq<Spelling>): string
    requires |how| == |s| && forall i :: 0 <= i < |s| ==> Spells(s[i], how[i])
  {
    if s == "" then "" else SpellOne(s[0], how[0]) + Spell(s[1..], how[1..])
  }

  /** Decoding gives back the name that was escaped, however much of it was, and in whatever case. */
  lemma DecodeUndoesSpelling(s: string, how: seq<Spelling>)
    requires |how| == |s| && forall i :: 0 <= i < |s| ==> Spells(s[i], how[i])
    ensures Decode(Spell(s, how), 0) == s
  {
    DecodeBehind("", s, how);
    assert "" + Spell(s, how) == Spell(s, how);
  }

  lemma {:induction false} DecodeBehind(pre: string, s: string, how: seq<Spelling>)
    requires |how| == |s| && forall i :: 0 <= i < |s| ==> Spells(s[i], how[i])
    ensures Decode(pre + Spell(s, how), |pre|) == s
    decreases |s|
  {
    if s != "" {
      var one, rest := SpellOne(s[0], how[0]), Spell(s[1..], how[1..]);
      DecodeBehind(pre + one, s[1..], how[1..]);
      DecodeOne(pre, s[0], how[0], rest);
      Base.Regroup(pre, one, rest);
    }
  }

  lemma DecodeOne(pre: string, c: char, how: Spelling, rest: string)
    requires Spells(c, how)
    ensures var one := SpellOne(c, how);
            Decode(pre + one + rest, |pre|) == [c] + Decode(pre + one + rest, |pre + one|)
  {
    var one := SpellOne(c, how);
    var text := pre + one + rest;
    assert text[|pre|] == one[0];
    if how.Escaped? {
      assert text[|pre| + 1] == one[1] && text[|pre| + 2] == one[2];
      DigitsRead(c, how.upper1, how.upper2);
      assert Unescape(text, |pre|) == c;
    } else {
      assert !EscapeAt(text, |pre|);
    }
  }

  lemma DigitsRead(c: char, upper1: bool, upper2: bool)
    requires c as int < 256
    ensures HexValue(HexDigit(c as int / 16, upper1)) * 16 + HexValue(HexDigit(c as int % 16, upper2)) == c as int
  {
  }

  /** No secret name can hide behind escapes, as long as its decoding fits the buffer. */
  lemma EscapedNameIsSecret(p: Policy, s: string, how: seq<Spelling>)
    requires |how| == |s| && forall i :: 0 <= i < |s| ==> Spells(s[i], how[i])
    requires ParamListed(p, s) && 0 < |s| <= DECODE_CAP
    ensures SecretParam(p, Spell(s, how))
  {
    DecodeUndoesSpelling(s, how);
  }

  /** Decode into the bounded buffer, giving up once it is full. */
  method DecodeName(name: string) returns (fits: bool, dec: string)
    ensures fits <==> |Decode(name, 0)| <= DECODE_CAP
    ensures fits ==> dec == Decode(name, 0)
  {
    dec := "";
    var i := 0;
    while i < |name|
      invariant 0 <= i <= |name| && |dec| <= DECODE_CAP
      invariant dec + Decode(name, i) == Decode(name, 0)
    {
      if |dec| == DECODE_CAP {
        return false, dec;
      }
      var c, width := name[i], 1;
      if EscapeAt(name, i) {
        c, width := Unescape(name, i), 3;
      }
      Base.Regroup(dec, [c], Decode(name, i + width));
      dec, i := dec + [c], i + width;
    }
    return true, dec;
  }

  method InEither(list: seq<string>, more: seq<string>, name: string) returns (found: bool)
    ensures found <==> Listed(list, name) || Listed(more, name)
  {
    found := InList(list, name);
    if !found {
      found := InList(more, name);
    }
  }

  /** The classifier with its bounded decode buffer. Without room for the decoded name only the raw one counts. */
  method IsSecretParam(p: Policy, name: string) returns (secret: bool)
    ensures secret <==> SecretParam(p, name)
  {
    if name == "" {
      return false;
    }
    secret := InEither(PARAMS, p.extraParams, name);
    if secret {
      return;
    }
    if '%' !in name {
      DecodeWithoutEscapes(name, 0);
      assert name[0..] == name;
      return;
    }
    var fits, dec := DecodeName(name);
    if fits {
      secret := InEither(PARAMS, p.extraParams, dec);
    }
  }

  // ---- queries: segments and the separators between them ----

  predicate IsSep(c: char)
  {
    c == '&' || c == ';'
  }

  function ScanChar(s: string, c: char, i: nat): (k: nat)
    requires i <= |s|
    ensures i <= k <= |s|
    decreases |s| - i
  {
    if i == |s| || s[i] == c then i else ScanChar(s, c, i + 1)
  }

  /** Position of the first c, or the length. */
  function FindChar(s: string, c: char): (k: nat)
    ensures k <= |s|
  {
    ScanChar(s, c, 0)
  }

  lemma {:induction false} CharScanned(s: string, c: char, i: nat)
    requires i <= |s|
    ensures var k := ScanChar(s, c, i);
            (forall j :: i <= j < k ==> s[j] != c) && (k < |s| ==> s[k] == c)
    decreases |s| - i
  {
    if i < |s| && s[i] != c {
      CharScanned(s, c, i + 1);
    }
  }

  lemma CharFound(s: string, c: char)
    ensures var k := FindChar(s, c);
            (forall j :: 0 <= j < k ==> s[j] != c) && (k < |s| ==> s[k] == c)
  {
    CharScanned(s, c, 0);
  }

  lemma CharFoundAt(s: string, c: char, i: nat)
    requires i <= |s| && (forall j :: 0 <= j < i ==> s[j] != c) && (i < |s| ==> s[i] == c)
    ensures FindChar(s, c) == i
  {
    CharFound(s, c);
  }

  function ScanSep(s: string, i: nat): (k: nat)
    requires i <= |s|
    ensures i <= k <= |s|
    decreases |s| - i
  {
    if i == |s| || IsSep(s[i]) then i else ScanSep(s, i + 1)
  }

  /** Position of the first separator, or the length. */
  function FindSep(s: string): (k: nat)
    ensures k <= |s|
  {
    ScanSep(s, 0)
  }

  lemma {:induction false} SepScanned(s: string, i: nat)
    requires i <= |s|
    ensures var k := ScanSep(s, i);
            (forall j :: i <= j < k ==> !IsSep(s[j])) && (k < |s| ==> IsSep(s[k]))
    decreases |s| - i
  {
    if i < |s| && !IsSep(s[i]) {
      SepScanned(s, i + 1);
    }
  }

  lemma SepFound(s: string)
    ensures var k := FindSep(s);
            (forall j :: 0 <= j < k ==> !IsSep(s[j])) && (k < |s| ==> IsSep(s[k]))
  {
    SepScanned(s, 0);
  }

  lemma SepFoundAt(s: string, i: nat)
    requires i <= |s| && (forall j :: 0 <= j < i ==> !IsSep(s[j])) && (i < |s| ==> IsSep(s[i]))
    ensures FindSep(s) == i
  {
    SepFound(s);
  }

  /** One segment: a secret parameter keeps its name and loses its value. */
  function RedactSegment(p: Policy, seg: string): string
  {
    var eq := FindChar(seg, '=');
    if eq < |seg| && SecretParam(p, seg[..eq]) then seg[..eq + 1] + REDACTED else seg
  }

  function Segments(q: string): (r: seq<string>)
    ensures |r| > 0
  {
    var i := FindSep(q);
    if i == |q| then [q] else [q[..i]] + Segments(q[i + 1..])
  }

  function Separators(q: string): string
  {
    var i := FindSep(q);
    if i == |q| then "" else [q[i]] + Separators(q[i + 1..])
  }

  function Join(segs: seq<string>, seps: string): string
    requires |segs| == |seps| + 1
    decreases |seps|
  {
    if seps == "" then segs[0] else segs[0] + [seps[0]] + Join(segs[1..], seps[1..])
  }

  function RedactSegments(p: Policy, segs: seq<string>): (r: seq<string>)
    ensures |r| == |segs|
    ensures forall i :: 0 <= i < |segs| ==> r[i] == RedactSegment(p, segs[i])
  {
    if segs == [] then [] else [RedactSegment(p, segs[0])] + RedactSegments(p, segs[1..])
  }

  lemma {:induction false} SplitSizes(q: string)
    ensures |Segments(q)| == |Separators(q)| + 1
    decreases |q|
  {
    if FindSep(q) < |q| {
      SplitSizes(q[FindSep(q) + 1..]);
    }
  }

  /** Text is its segments and separators, and nothing more. */
  lemma {:induction false} SplitJoin(q: string)
    ensures |Segments(q)| == |Separators(q)| + 1
    ensures Join(Segments(q), Separators(q)) == q
    decreases |q|
  {
    SplitSizes(q);
    var i := FindSep(q);
    if i < |q| {
      var rest := q[i + 1..];
      SplitJoin(rest);
      var segs, seps := Segments(q), Separators(q);
      assert segs == [q[..i]] + Segments(rest) && seps == [q[i]] + Separators(rest);
      assert segs[1..] == Segments(rest) && seps[1..] == Separators(rest);
      assert Join(segs, seps) == q[..i] + [q[i]] + rest;
    }
  }

  /** The specification of query redaction: rewrite each segment, keep each separator. */
  function RedactQuery(p: Policy, q: string): string
  {
    SplitJoin(q);
    Join(RedactSegments(p, Segments(q)), Separators(q))
  }

  lemma SegmentHasNoSep(p: Policy, seg: string)
    requires forall j :: 0 <= j < |seg| ==> !IsSep(seg[j])
    ensures forall j :: 0 <= j < |RedactSegment(p, seg)| ==> !IsSep(RedactSegment(p, seg)[j])
  {
    assert forall j :: 0 <= j < |REDACTED| ==> !IsSep(REDACTED[j]);
  }

  lemma FindSepAt(a: string, c: char, b: string)
    requires (forall j :: 0 <= j < |a| ==> !IsSep(a[j])) && IsSep(c)
    ensures FindSep(a + [c] + b) == |a|
  {
    var w := a + [c] + b;
    assert w[|a|] == c;
    assert forall j :: 0 <= j < |a| ==> w[j] == a[j];
    SepFoundAt(w, |a|);
  }

  lemma {:induction false} RedactQueryStep(p: Policy, q: string)
    ensures var i := FindSep(q);
            RedactQuery(p, q) == if i == |q| then RedactSegment(p, q)
                                 else RedactSegment(p, q[..i]) + [q[i]] + RedactQuery(p, q[i + 1..])
  {
    var i := FindSep(q);
    SplitJoin(q);
    if i < |q| {
      SplitJoin(q[i + 1..]);
      assert Segments(q)[1..] == Segments(q[i + 1..]);
      assert Separators(q)[1..] == Separators(q[i + 1..]);
      assert RedactSegments(p, Segments(q))[1..] == RedactSegments(p, Segments(q[i + 1..]));
    }
  }

  /** The redacted query has the same separators in the same order, and segment by segment the
      secret ones carry the marker and the others are untouched. */
  lemma {:induction false} RedactedQueryShape(p: Policy, q: string)
    ensures Segments(RedactQuery(p, q)) == RedactSegments(p, Segments(q))
    ensures Separators(RedactQuery(p, q)) == Separators(q)
    decreases |q|
  {
    RedactQueryStep(p, q);
    var i := FindSep(q);
    var head := RedactSegment(p, q[..i]);
    SepFound(q);
    SegmentHasNoSep(p, q[..i]);
    var out := RedactQuery(p, q);
    if i == |q| {
      assert q[..i] == q;
      SepFoundAt(out, |out|);
    } else {
      var rest := q[i + 1..];
      RedactedQueryShape(p, rest);
      FindSepAt(head, q[i], RedactQuery(p, rest));
      assert out[..|head|] == head && out[|head|] == q[i] && out[|head| + 1..] == RedactQuery(p, rest);
      assert Segments(q)[1..] == Segments(rest);
    }
  }

  lemma SegmentIdempotent(p: Policy, seg: string)
    ensures RedactSegment(p, RedactSegment(p, seg)) == RedactSegment(p, seg)
  {
    var eq := FindChar(seg, '=');
    if eq < |seg| && SecretParam(p, seg[..eq]) {
      var out := seg[..eq + 1] + REDACTED;
      CharFound(seg, '=');
      assert out[eq] == '=' && forall j :: 0 <= j < eq ==> out[j] == seg[j];
      CharFoundAt(out, '=', eq);
      assert out[..eq] == seg[..eq] && out[..eq + 1] == seg[..eq + 1];
    }
  }

  lemma QueryIdempotent(p: Policy, q: string)
    ensures RedactQuery(p, RedactQuery(p, q)) == RedactQuery(p, q)
  {
    RedactedQueryShape(p, q);
    var segs := RedactSegments(p, Segments(q));
    forall i | 0 <= i < |segs|
      ensures RedactSegment(p, segs[i]) == segs[i]
    {
      SegmentIdempotent(p, Segments(q)[i]);
    }
    assert RedactSegments(p, segs) == segs;
  }

  /** Walk to the end of a segment, noting its first '='. */
  method ScanSegment(q: string, start: nat) returns (end: nat, eq: int)
    requires start <= |q|
    ensures start <= end <= |q| && end - start == FindSep(q[start..])
    ensures var seg := q[start..end];
            eq == if FindChar(seg, '=') == |seg| then -1 else start + FindChar(seg, '=')
  {
    end, eq := start, -1;
    while end < |q| && !IsSep(q[end])
      invariant start <= end <= |q|
      invariant forall j :: start <= j < end ==> !IsSep(q[j])
      invariant eq == -1 ==> forall j :: start <= j < end ==> q[j] != '='
      invariant eq != -1 ==> start <= eq < end && q[eq] == '=' && forall j :: start <= j < eq ==> q[j] != '='
    {
      if q[end] == '=' && eq == -1 {
        eq := end;
      }
      end := end + 1;
    }
    SepFoundAt(q[start..], end - start);
    CharFoundAt(q[start..end], '=', if eq == -1 then end - start else eq - start);
  }

  /** One segment of the loop, with the text copied as the source copies it. */
  method RedactOne(p: Policy, q: string, start: nat, end: nat, eq: int) returns (text: string)
    requires start <= end <= |q|
    requires var seg := q[start..end];
             eq == if FindChar(seg, '=') == |seg| then -1 else start + FindChar(seg, '=')
    ensures text == RedactSegment(p, q[start..end])
  {
    ghost var seg := q[start..end];
    var secret := false;
    if eq != -1 {
      assert seg[..eq - start] == q[start..eq] && seg[..eq - start + 1] == q[start..eq + 1];
      secret := IsSecretParam(p, q[start..eq]);
    }
    text := if secret then q[start..eq + 1] + REDACTED else q[start..end];
  }

  /** The source's loop over the query text, appending to a buffer. */
  method RedactQueryLoop(p: Policy, q: string) returns (out: string)
    ensures out == RedactQuery(p, q)
  {
    out := "";
    var i := 0;
    assert q[0..] == q;
    while i < |q|
      invariant 0 <= i <= |q|
      invariant out + RedactQuery(p, q[i..]) == RedactQuery(p, q)
    {
      var end, eq := ScanSegment(q, i);
      var text := RedactOne(p, q, i, end, eq);
      if end < |q| {
        NextSegment(p, q, i, end);
        RegroupFour(out, text, [q[end]], RedactQuery(p, q[end + 1..]));
        out := out + text + [q[end]];
        i := end + 1;
      } else {
        LastSegment(p, q, i);
        out := out + text;
        i := end;
      }
    }
    assert q[i..] == q[|q|..];
    EmptyTail(p, q);
  }

  lemma RegroupFour(a: string, b: string, c: string, d: string)
    ensures a + (b + c + d) == a + b + c + d
  {
  }

  lemma EmptyTail(p: Policy, q: string)
    ensures RedactQuery(p, q[|q|..]) == ""
  {
    var none := q[|q|..];
    RedactQueryStep(p, none);
  }

  lemma LastSegment(p: Policy, q: string, i: nat)
    requires i <= |q| && |q| - i == FindSep(q[i..])
    ensures RedactQuery(p, q[i..]) == RedactSegment(p, q[i..|q|])
    ensures RedactQuery(p, q[|q|..]) == ""
  {
    RedactQueryStep(p, q[i..]);
    EmptyTail(p, q);
    assert q[i..] == q[i..|q|];
  }

  lemma Slices(q: string, i: nat, end: nat)
    requires i <= end < |q|
    ensures q[i..][..end - i] == q[i..end] && q[i..][end - i] == q[end] && q[i..][end - i + 1..] == q[end + 1..]
  {
  }

  lemma NextSegment(p: Policy, q: string, i: nat, end: nat)
    requires i <= end < |q| && end - i == FindSep(q[i..])
    ensures RedactQuery(p, q[i..]) == RedactSegment(p, q[i..end]) + [q[end]] + RedactQuery(p, q[end + 1..])
  {
    var rest, e := q[i..], end - i;
    RedactQueryStep(p, rest);
    assert RedactQuery(p, rest) == RedactSegment(p, rest[..e]) + [rest[e]] + RedactQuery(p, rest[e + 1..]);
    Slices(q, i, end);
  }
}
