/** Header lists: what may enter one, what it weighs on the wire, and what leaves it. */
module Headers {
  import opened Ascii
  import opened Base
  import opened Filter
  import Redact

  datatype Header = Header(name: string, value: string)

  /** A token character (section 3.2.6 of RFC 7230). */
  predicate IsTchar(c: char)
  {
    'a' <= c <= 'z' || 'A' <= c <= 'Z' || '0' <= c <= '9' || c in "!#$%&'*+-.^_`|~"
  }

  predicate NameValid(name: string)
  {
    name != "" && forall i :: 0 <= i < |name| ==> IsTchar(name[i])
  }

  /** Printable text, tabs and bytes above ASCII: no CR, LF, NUL or other control. */
  predicate ValueValid(value: string)
  {
    forall i :: 0 <= i < |value| ==> (value[i] as int >= 0x20 && value[i] as int != 0x7F) || value[i] == '\t'
  }

  predicate Valid(h: Header)
  {
    NameValid(h.name) && ValueValid(h.value)
  }

  /** A value is valid when it is tabs, printable ASCII and bytes above it, and only then. */
  lemma ValueValidMeans(value: string)
    ensures ValueValid(value) <==> forall c :: c in value ==> c == '\t' || ' ' <= c <= '~' || c as int >= 128
  {
    if !ValueValid(value) {
      var i :| 0 <= i < |value| && (value[i] as int < 0x20 || value[i] as int == 0x7F) && value[i] != '\t';
      assert value[i] in value;
    }
  }

  /** What a valid field cannot hold: in its name nothing that ends a name or a line, in its value no
      line break and no NUL. */
  lemma ValidMeans(h: Header)
    requires Valid(h)
    ensures h.name != "" && ':' !in h.name && ' ' !in h.name && '\r' !in h.name && '\n' !in h.name
    ensures '\r' !in h.value && '\n' !in h.value && '\0' !in h.value
  {
    ValueValidMeans(h.value);
    assert !IsTchar(':') && !IsTchar(' ') && !IsTchar('\r') && !IsTchar('\n');
    assert forall c :: c in h.name ==> IsTchar(c);
  }

  predicate AllValid(items: seq<Header>)
  {
    forall i :: 0 <= i < |items| ==> Valid(items[i])
  }

  function Line(h: Header): (s: string)
    ensures |s| == |h.name| + |h.value| + 4
  {
    h.name + ": " + h.value + "\r\n"
  }

  /** The header section as it goes out. */
  function Section(items: seq<Header>): string
  {
    if items == [] then "" else Line(items[0]) + Section(items[1..])
  }

  lemma {:induction false} SectionAppend(a: seq<Header>, b: seq<Header>)
    ensures Section(a + b) == Section(a) + Section(b)
  {
    if a == [] {
      assert a + b == b && Section(a) == "";
    } else {
      SectionAppend(a[1..], b);
      assert (a + b)[1..] == a[1..] + b;
      Regroup(Line(a[0]), Section(a[1..]), Section(b));
    }
  }

  // No field can smuggle in another one.

  lemma LineShape(h: Header, x: string)
    requires Valid(h)
    ensures Line(h) + x == h.name + [':'] + ([' '] + (h.value + ['\r'] + (['\n'] + x)))
    ensures ':' !in h.name && '\r' !in h.value
  {
  }

  lemma HeadCuts(c: char, x: string, y: string)
    requires [c] + x == [c] + y
    ensures x == y
  {
    assert ([c] + x)[1..] == x && ([c] + y)[1..] == y;
  }

  lemma LineCuts(a: Header, x: string, b: Header, y: string)
    requires Valid(a) && Valid(b) && Line(a) + x == Line(b) + y
    ensures a == b && x == y
  {
    LineShape(a, x);
    LineShape(b, y);
    var p, q := a.value + ['\r'] + (['\n'] + x), b.value + ['\r'] + (['\n'] + y);
    CutAtSeparator(a.name, [' '] + p, b.name, [' '] + q, ':');
    HeadCuts(' ', p, q);
    CutAtSeparator(a.value, ['\n'] + x, b.value, ['\n'] + y, '\r');
    HeadCuts('\n', x, y);
  }

  lemma LineIsNotBlank(a: Header, x: string, y: string)
    requires Valid(a)
    ensures Line(a) + x != "\r\n" + y
  {
    assert (Line(a) + x)[0] == a.name[0];
    assert ("\r\n" + y)[0] == '\r';
  }

  /** A header section ended by its blank line can be read in one way only: the fields that went
      in, in order, and then the body. */
  lemma {:induction false} SectionReadsOneWay(a: seq<Header>, x: string, b: seq<Header>, y: string)
    requires AllValid(a) && AllValid(b)
    requires Section(a) + "\r\n" + x == Section(b) + "\r\n" + y
    ensures a == b && x == y
  {
    if a == [] && b == [] {
      assert (Section(a) + "\r\n" + x)[2..] == x && (Section(b) + "\r\n" + y)[2..] == y;
    } else if a == [] {
      assert Section(b) + "\r\n" + y == Line(b[0]) + (Section(b[1..]) + "\r\n" + y);
      LineIsNotBlank(b[0], Section(b[1..]) + "\r\n" + y, x);
    } else if b == [] {
      assert Section(a) + "\r\n" + x == Line(a[0]) + (Section(a[1..]) + "\r\n" + x);
      LineIsNotBlank(a[0], Section(a[1..]) + "\r\n" + x, y);
    } else {
      var p, q := Section(a[1..]) + "\r\n" + x, Section(b[1..]) + "\r\n" + y;
      assert Section(a) + "\r\n" + x == Line(a[0]) + p && Section(b) + "\r\n" + y == Line(b[0]) + q;
      LineCuts(a[0], p, b[0], q);
      SectionReadsOneWay(a[1..], x, b[1..], y);
      assert a == [a[0]] + a[1..] && b == [b[0]] + b[1..];
    }
  }

  // The list.

  /** Zero switches a limit off. */
  datatype Limits = Limits(count: nat, name: nat, value: nat, bytes: nat)

  datatype Outcome = Added | Malformed | OverLimit | Overflow | OutOfMemory

  predicate Under(x: nat, limit: nat)
  {
    limit == 0 || x <= limit
  }

  predicate FieldUnder(h: Header, l: Limits)
  {
    Under(|h.name|, l.name) && Under(|h.value|, l.value)
  }

  predicate Other(name: string, h: Header)
  {
    !CaseEq(h.name, name)
  }

  function OtherThan(name: string): Header -> bool
  {
    (h: Header) => Other(name, h)
  }

  /** The list without every field of one name. */
  function Without(items: seq<Header>, name: string): seq<Header>
  {
    Keep(items, OtherThan(name))
  }

  /** Would a field added to these keep every limit? */
  predicate Admits(l: Limits, items: seq<Header>, h: Header)
  {
    var bytes := |Section(items)| + |Line(h)|;
    && FieldUnder(h, l) && Under(|items| + 1, l.count)
    && bytes <= U64_MAX && Under(bytes, l.bytes)
  }

  /** The limits in numbers: each counts only when it is set, and may be reached but not passed. */
  lemma AdmitsMeans(l: Limits, items: seq<Header>, h: Header)
    ensures var bytes := |Section(items)| + |h.name| + |h.value| + 4;
            Admits(l, items, h) <==>
            && (l.count > 0 ==> |items| < l.count)
            && (l.name > 0 ==> |h.name| <= l.name) && (l.value > 0 ==> |h.value| <= l.value)
            && bytes <= 0xFFFF_FFFF_FFFF_FFFF && (l.bytes > 0 ==> bytes <= l.bytes)
  {
  }

  /** Subtraction that stops at zero. */
  function Less(a: nat, b: nat): nat
  {
    if a >= b then a - b else 0
  }

  class List {
    const limits: Limits
    var items: seq<Header>
    var bytes: nat

    /** The running total is what the fields weigh on the wire, and no limit is exceeded. */
    predicate Valid()
      reads this
    {
      && AllValid(items) && bytes == |Section(items)| <= U64_MAX
      && Under(|items|, limits.count) && Under(bytes, limits.bytes)
      && forall i :: 0 <= i < |items| ==> FieldUnder(items[i], limits)
    }

    constructor (limits: Limits)
      ensures Valid() && items == [] && this.limits == limits
    {
      this.limits, items, bytes := limits, [], 0;
    }

    method Add(name: string, value: string, memory: bool) returns (r: Outcome)
      requires Valid()
      modifies this
      ensures Valid()
      ensures r == Malformed <==> !(NameValid(name) && ValueValid(value))
      ensures r == OutOfMemory ==> !memory
      ensures r == Added <==>
        NameValid(name) && ValueValid(value) && Admits(limits, old(items), Header(name, value)) && memory
      ensures items == old(items) + if r == Added then [Header(name, value)] else []
    {
      if !NameValid(name) || !ValueValid(value) {
        return Malformed;
      }
      if limits.count != 0 && |items| >= limits.count {
        return OverLimit;
      }
      if limits.name != 0 && |name| > limits.name {
        return OverLimit;
      }
      if limits.value != 0 && |value| > limits.value {
        return OverLimit;
      }
      var more := |name| + |value| + 4;
      if bytes + more > U64_MAX {
        return Overflow;
      }
      if limits.bytes != 0 && bytes + more > limits.bytes {
        return OverLimit;
      }
      if !memory {
        return OutOfMemory;
      }
      var h := Header(name, value);
      SectionAppend(items, [h]);
      assert Section([h]) == Line(h) + Section([]);
      items, bytes := items + [h], bytes + more;
      return Added;
    }

    /** Replace a field. A malformed one leaves the list alone; one that is refused later has by
        then cost the list the old value. */
    method Set(name: string, value: string, memory: bool) returns (r: Outcome)
      requires Valid()
      modifies this
      ensures Valid()
      ensures r == Malformed <==> !(NameValid(name) && ValueValid(value))
      ensures r == Added <==>
        NameValid(name) && ValueValid(value) && Admits(limits, Without(old(items), name), Header(name, value)) && memory
      ensures r == Malformed ==> items == old(items)
      ensures r == Added ==> items == Without(old(items), name) + [Header(name, value)]
      ensures r != Malformed && r != Added ==> items == Without(old(items), name)
      ensures r != Added ==>
        (items == old(items) <==> r == Malformed || forall h :: h in old(items) ==> Other(name, h))
    {
      KeepAllIff(items, OtherThan(name));
      if !NameValid(name) || !ValueValid(value) {
        return Malformed;
      }
      var n := Remove(name);
      r := Add(name, value, memory);
    }

    /** Walk the list, closing the gap over each field so named and looking again at its index. */
    method Remove(name: string) returns (removed: nat)
      requires Valid()
      modifies this
      ensures Valid()
      ensures items == Without(old(items), name) && removed == old(|items|) - |items|
    {
      ghost var was, k := items, 0;
      var i := 0;
      removed := 0;
      while i < |items|
        invariant Valid() && i <= |items| && k <= |was| && i + removed == k
        invariant items[..i] == Without(was[..k], name) && items[i..] == was[k..]
        decreases |items| - i
      {
        KeepNext(was, OtherThan(name), k);
        ShiftOne(items, i, was, k);
        var c := CaseCompare(items[i].name, name);
        if c == 0 {
          removed := removed + 1;
          Drop(i);
        } else {
          i := i + 1;
        }
        k := k + 1;
      }
      assert was[..k] == was && items[..i] == items;
    }

    method Drop(i: nat)
      requires Valid() && i < |items|
      modifies this
      ensures Valid() && items == old(items)[..i] + old(items)[i + 1..]
    {
      var h := items[i];
      var weight := |h.name| + |h.value| + 4;
      SectionWithout(items, i);
      items := items[..i] + items[i + 1..];
      bytes := Less(bytes, weight);
    }
  }

  /** Two lists with a common rest: what passing or dropping its first field does to both. */
  lemma ShiftOne(a: seq<Header>, i: nat, b: seq<Header>, k: nat)
    requires i < |a| && k <= |b| && a[i..] == b[k..]
    ensures k < |b| && a[i] == b[k] && a[i + 1..] == b[k + 1..] && a[..i + 1] == a[..i] + [a[i]]
    ensures (a[..i] + a[i + 1..])[..i] == a[..i] && (a[..i] + a[i + 1..])[i..] == b[k + 1..]
  {
    assert a[i] == a[i..][0] && b[k] == b[k..][0];
    assert a[i + 1..] == a[i..][1..] && b[k + 1..] == b[k..][1..];
  }

  /** A value one character too long: it is refused, and the value it was to replace is gone. */
  method RefusedValueCostsTheOld() returns (first: Outcome, second: Outcome, l: List)
    ensures first == Added && second != Added && l.items == []
  {
    l := new List(Limits(0, 0, 3, 0));
    var old_ := Header("a", "yes");
    first := l.Add("a", "yes", true);
    assert Admits(l.limits, [], old_);
    assert l.items == [old_];
    OnlyOneGoes(old_);
    second := l.Set("a", "none", true);
  }

  lemma OnlyOneGoes(h: Header)
    ensures Without([h], h.name) == []
  {
    KeepAllIff([h], OtherThan(h.name));
    assert h in [h] && !Other(h.name, h);
  }

  lemma SectionWithout(items: seq<Header>, i: nat)
    requires i < |items|
    ensures |Section(items)| == |Section(items[..i] + items[i + 1..])| + |Line(items[i])|
  {
    SectionAppend(items[..i], items[i..]);
    assert items == items[..i] + items[i..];
    assert items[i..][1..] == items[i + 1..];
    SectionAppend(items[..i], items[i + 1..]);
  }

  // Stripping credentials.

  /** The size of the copy the strip loop makes of a name. */
  const NAME_CAP: nat := 256

  function Copied(name: string): string
  {
    name[..Min(|name|, NAME_CAP)]
  }

  predicate Secret(p: Redact.Policy, h: Header)
  {
    Redact.SecretHeader(p, h.name)
  }

  predicate SecretsFit(items: seq<Header>, p: Redact.Policy)
  {
    forall h :: h in items && Secret(p, h) ==> |h.name| <= NAME_CAP
  }

  function Harmless(p: Redact.Policy): Header -> bool
  {
    (h: Header) => !Secret(p, h)
  }

  /** The list without its credentials. */
  function Stripped(items: seq<Header>, p: Redact.Policy): seq<Header>
  {
    Keep(items, Harmless(p))
  }

  lemma SecretIgnoresCase(p: Redact.Policy, a: string, b: string)
    ensures CaseEq(a, b) ==> (Redact.SecretHeader(p, a) <==> Redact.SecretHeader(p, b))
  {
    if CaseEq(a, b) {
      assert |LowerAll(a)| == |LowerAll(b)|;
    }
  }

  /** Namesakes are secret together, so removing all of them removes no other field. */
  lemma NamesakesAgree(items: seq<Header>, p: Redact.Policy, name: string)
    requires Redact.SecretHeader(p, name)
    ensures Stripped(Without(items, name), p) == Stripped(items, p)
  {
    forall h | h in items && !Secret(p, h)
      ensures Other(name, h)
    {
      SecretIgnoresCase(p, h.name, name);
    }
    KeepTwice(items, OtherThan(name), Harmless(p));
  }

  lemma WithoutShrinks(items: seq<Header>, p: Redact.Policy, name: string, h: Header)
    requires SecretsFit(items, p) && h in items && CaseEq(h.name, name)
    ensures |Without(items, name)| < |items| && SecretsFit(Without(items, name), p)
  {
    KeepAllIff(items, OtherThan(name));
    assert !Other(name, h);
    forall g | g in Without(items, name)
      ensures g in items
    {
      KeepIs(items, OtherThan(name), g);
    }
  }

  /** Remove every field that goes by the copied name of a credential: credentials, and no less. */
  method StripName(l: List, p: Redact.Policy, i: nat) returns (n: nat)
    requires l.Valid() && SecretsFit(l.items, p) && i < |l.items| && Secret(p, l.items[i])
    modifies l
    ensures l.Valid() && SecretsFit(l.items, p)
    ensures Stripped(l.items, p) == Stripped(old(l.items), p)
    ensures n == old(|l.items|) - |l.items| > 0
  {
    var h := l.items[i];
    var name := Copied(h.name);
    assert name == h.name;
    NamesakesAgree(l.items, p, name);
    WithoutShrinks(l.items, p, name, h);
    n := l.Remove(name);
  }

  /** The restarting loop: find a credential, remove every field of that name, start over. */
  method StripCredentials(l: List, p: Redact.Policy) returns (removed: nat)
    requires l.Valid() && SecretsFit(l.items, p)
    modifies l
    ensures l.Valid()
    ensures l.items == Stripped(old(l.items), p) && removed == old(|l.items|) - |l.items|
  {
    var i := 0;
    removed := 0;
    while i < |l.items|
      invariant l.Valid() && i <= |l.items| && SecretsFit(l.items, p)
      invariant forall j :: 0 <= j < i ==> !Secret(p, l.items[j])
      invariant Stripped(l.items, p) == Stripped(old(l.items), p)
      invariant removed == old(|l.items|) - |l.items|
      decreases |l.items|, |l.items| - i
    {
      if Secret(p, l.items[i]) {
        var n := StripName(l, p, i);
        removed := removed + n;
        i := 0;
      } else {
        i := i + 1;
      }
    }
    KeepAllIff(l.items, Harmless(p));
  }

  /** One turn of that loop, for names of any length. */
  function StripTurn(items: seq<Header>, i: nat, p: Redact.Policy): (r: (seq<Header>, nat))
    requires i < |items|
    ensures r.1 <= |r.0|
  {
    if Secret(p, items[i]) then (Without(items, Copied(items[i].name)), 0) else (items, i + 1)
  }

  /** The list and the index after n turns, or at the end of the loop. */
  function StripTurns(items: seq<Header>, i: nat, p: Redact.Policy, n: nat): (r: (seq<Header>, nat))
    requires i <= |items|
    ensures r.1 <= |r.0|
    decreases n
  {
    if n == 0 || i == |items| then (items, i)
    else
      var t := StripTurn(items, i, p);
      StripTurns(t.0, t.1, p, n - 1)
  }

  ghost predicate StripEnds(items: seq<Header>, p: Redact.Policy)
  {
    exists n :: StripTurns(items, 0, p, n).1 == |StripTurns(items, 0, p, n).0|
  }

  /** A secret field whose name is longer than the copy is never removed, and never passed. */
  lemma {:induction false} LongNameHolds(items: seq<Header>, i: nat, p: Redact.Policy, n: nat, h: Header)
    requires i <= |items| && (forall j :: 0 <= j < i ==> !Secret(p, items[j]))
    requires h in items && Secret(p, h) && |h.name| > NAME_CAP
    ensures StripTurns(items, i, p, n).1 < |StripTurns(items, i, p, n).0|
    decreases n
  {
    if n > 0 && i < |items| {
      var t := StripTurn(items, i, p);
      if Secret(p, items[i]) {
        var name := Copied(items[i].name);
        assert |LowerAll(name)| != |LowerAll(h.name)|;
        KeepIs(items, OtherThan(name), h);
      }
      LongNameHolds(t.0, t.1, p, n - 1, h);
    }
  }

  lemma {:induction false} ShortNamesGo(items: seq<Header>, i: nat, p: Redact.Policy) returns (n: nat)
    requires i <= |items| && SecretsFit(items, p)
    ensures StripTurns(items, i, p, n).1 == |StripTurns(items, i, p, n).0|
    decreases |items|, |items| - i
  {
    n := 0;
    if i < |items| {
      var t := StripTurn(items, i, p);
      if Secret(p, items[i]) {
        WithoutShrinks(items, p, Copied(items[i].name), items[i]);
      }
      var m := ShortNamesGo(t.0, t.1, p);
      n := m + 1;
    }
  }

  /** The loop ends exactly when every secret name fits the copy. */
  lemma StripEndsIff(items: seq<Header>, p: Redact.Policy)
    ensures StripEnds(items, p) <==> SecretsFit(items, p)
  {
    if SecretsFit(items, p) {
      var n := ShortNamesGo(items, 0, p);
    } else {
      var h :| h in items && Secret(p, h) && |h.name| > NAME_CAP;
      forall n: nat
        ensures StripTurns(items, 0, p, n).1 < |StripTurns(items, 0, p, n).0|
      {
        LongNameHolds(items, 0, p, n, h);
      }
    }
  }

  /** A list on which it does not: one field, its name of 257 characters configured as secret. */
  lemma LongSecretNeverEnds()
    ensures var name := seq(257, i => 'a');
            !StripEnds([Header(name, "")], Redact.Policy([name], []))
  {
    var name := seq(257, i => 'a');
    var p, h := Redact.Policy([name], []), Header(name, "");
    assert p.extraHeaders[0] == name;
    assert h in [h] && Secret(p, h);
    StripEndsIff([h], p);
  }
}
