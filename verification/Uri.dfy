/** Origins (RFC 6454): scheme, host and port, with the default port standing for none. */
module Uri {
  import opened Ascii
  import Decimal

  datatype RawUri = RawUri(scheme: string, host: string, port: nat, https: bool, target: string)

  /** What the parser hands over: lower-case scheme and host, http or https, a 16-bit port. */
  predicate Parsed(u: RawUri)
  {
    && u.scheme == (if u.https then "https" else "http")
    && IsLower(u.host) && u.port < 65536
  }

  type Uri = u: RawUri | Parsed(u) witness RawUri("http", "", 80, false, "/")

  function DefaultPort(scheme: string): nat
  {
    if CaseEq(scheme, "https") then 443 else if CaseEq(scheme, "http") then 80 else 0
  }

  function Port(u: RawUri): nat
  {
    if u.port != 0 then u.port else DefaultPort(u.scheme)
  }

  predicate SameOrigin(a: RawUri, b: RawUri)
  {
    CaseEq(a.scheme, b.scheme) && CaseEq(a.host, b.host) && Port(a) == Port(b)
  }

  /** Same-origin is an equivalence, so it can be carried along a chain of redirects. */
  lemma SameOriginIsEquivalence(a: RawUri, b: RawUri, c: RawUri)
    ensures SameOrigin(a, a)
    ensures SameOrigin(a, b) ==> SameOrigin(b, a)
    ensures SameOrigin(a, b) && SameOrigin(b, c) ==> SameOrigin(a, c)
  {
  }

  /** Of what the parser hands over: the same scheme, host and effective port, 443 or 80 where none is
      written. */
  lemma SameOriginMeans(a: Uri, b: Uri)
    ensures SameOrigin(a, b) <==>
      && a.https == b.https && a.host == b.host
      && (if a.port != 0 then a.port else if a.https then 443 else 80)
         == (if b.port != 0 then b.port else if b.https then 443 else 80)
  {
    SchemesDiffer();
    assert CaseEq(a.host, b.host) <==> a.host == b.host;
  }

  predicate WritesPort(u: RawUri)
  {
    u.port != 0 && u.port != DefaultPort(u.scheme)
  }

  function OriginString(u: RawUri): string
  {
    u.scheme + "://" + u.host
    + (if WritesPort(u) then ":" + Decimal.Text(u.port) else "")
  }

  const ORIGIN_CAP: nat := 320
  const MAX_HOST: nat := 253

  lemma {:induction false} TextLength(v: nat, d: nat)
    requires v < Decimal.Pow10(d) && d > 0
    ensures |Decimal.Text(v)| <= d
    decreases d
  {
    if v >= 10 {
      assert d > 1;
      TextLength(v / 10, d - 1);
    }
  }

  /** A host that passes the length check always fits the fixed origin buffer. */
  lemma OriginFits(u: Uri)
    requires |u.host| <= MAX_HOST
    ensures |OriginString(u)| < ORIGIN_CAP
  {
    assert Decimal.Pow10(5) == 100000;
    TextLength(u.port, 5);
  }

  /** The record of a request in a redirect chain. */
  function TrailKey(method_: string, u: RawUri): string
  {
    method_ + " " + OriginString(u) + u.target
  }

  lemma SchemesDiffer()
    ensures !CaseEq("http", "https")
    ensures DefaultPort("http") == 80 && DefaultPort("https") == 443
  {
    assert |LowerAll("http")| != |LowerAll("https")|;
  }

  /** Two requests for the same resource leave the same record, whether or not a default port was
      written out: a chain with distinct records never repeats one. */
  lemma SameRequestSameKey(m: string, a: Uri, b: Uri)
    requires SameOrigin(a, b) && a.target == b.target
    ensures TrailKey(m, a) == TrailKey(m, b)
  {
    SchemesDiffer();
    assert a.host == LowerAll(a.host) == LowerAll(b.host) == b.host;
    assert a.scheme == b.scheme;
  }

  // How much the record says.

  /** What request building and the parser ensure: a method is a token, a host holds no slash and
      a target starts with one. */
  predicate Plain(method_: string, u: RawUri)
  {
    ' ' !in method_ && '/' !in u.host && u.target != "" && u.target[0] == '/'
  }

  function Authority(u: RawUri): string
  {
    u.host + (if WritesPort(u) then ":" + Decimal.Text(u.port) else "")
  }

  lemma DigitsAvoid(v: nat, c: char)
    requires !Decimal.IsDigit(c)
    ensures c !in Decimal.Text(v)
  {
    Decimal.TextValue(v);
  }

  /** A record reads: method, scheme, authority, target. */
  lemma KeyShape(m: string, u: Uri)
    requires Plain(m, u)
    ensures TrailKey(m, u)
      == m + [' '] + (u.scheme + [':'] + ("//" + (Authority(u) + ['/'] + u.target[1..])))
    ensures ':' !in u.scheme && '/' !in Authority(u) && u.target == ['/'] + u.target[1..]
  {
    DigitsAvoid(u.port, '/');
    assert OriginString(u) == u.scheme + [':'] + ("//" + Authority(u));
    assert u.target == ['/'] + u.target[1..];
  }

  /** Everything in a record, the authority as a whole included, can be read back. */
  lemma KeyParts(m: string, a: Uri, n: string, b: Uri)
    requires Plain(m, a) && Plain(n, b) && TrailKey(m, a) == TrailKey(n, b)
    ensures m == n && a.scheme == b.scheme && Authority(a) == Authority(b) && a.target == b.target
  {
    KeyShape(m, a);
    KeyShape(n, b);
    var x, y := a.target[1..], b.target[1..];
    var p, q := Authority(a) + ['/'] + x, Authority(b) + ['/'] + y;
    CutAtSeparator(m, a.scheme + [':'] + ("//" + p), n, b.scheme + [':'] + ("//" + q), ' ');
    CutAtSeparator(a.scheme, "//" + p, b.scheme, "//" + q, ':');
    assert ("//" + p)[2..] == p && ("//" + q)[2..] == q;
    CutAtSeparator(Authority(a), x, Authority(b), y, '/');
  }

  /** Equal records stand for the same request exactly when both write a port or neither does. */
  lemma TrailKeyDecides(m: string, a: Uri, n: string, b: Uri)
    requires Plain(m, a) && Plain(n, b)
    ensures TrailKey(m, a) == TrailKey(n, b) && (WritesPort(a) <==> WritesPort(b))
      <==> m == n && SameOrigin(a, b) && a.target == b.target
  {
    SchemesDiffer();
    if TrailKey(m, a) == TrailKey(n, b) && (WritesPort(a) <==> WritesPort(b)) {
      KeyParts(m, a, n, b);
      if WritesPort(a) {
        DigitsAvoid(a.port, ':');
        DigitsAvoid(b.port, ':');
        assert Authority(a) == a.host + [':'] + Decimal.Text(a.port);
        assert Authority(b) == b.host + [':'] + Decimal.Text(b.port);
        CutAtLastSeparator(a.host, Decimal.Text(a.port), b.host, Decimal.Text(b.port), ':');
        Decimal.TextInjective(a.port, b.port);
      } else {
        assert Authority(a) == a.host && Authority(b) == b.host;
      }
    }
    if m == n && SameOrigin(a, b) && a.target == b.target {
      SameRequestSameKey(m, a, b);
    }
  }

  /** So no redirect is wrongly called a loop as long as no host is an IPv6 literal. */
  lemma NamedHostsNeverCollide(m: string, a: Uri, n: string, b: Uri)
    requires Plain(m, a) && Plain(n, b) && ':' !in a.host && ':' !in b.host
    ensures TrailKey(m, a) == TrailKey(n, b) <==> m == n && SameOrigin(a, b) && a.target == b.target
  {
    TrailKeyDecides(m, a, n, b);
    if TrailKey(m, a) == TrailKey(n, b) {
      KeyParts(m, a, n, b);
      assert WritesPort(a) <==> ':' in Authority(a);
      assert WritesPort(b) <==> ':' in Authority(b);
    }
  }

  /** An IPv6 host is written without brackets, so its port can be taken for its last group: two
      different servers, one record. */
  lemma LiteralsCanCollide()
    ensures
      var a: RawUri, b: RawUri :=
        RawUri("http", "::1", 8080, false, "/"), RawUri("http", "::1:8080", 80, false, "/");
      Parsed(a) && Parsed(b) && !SameOrigin(a, b) && TrailKey("GET", a) == TrailKey("GET", b)
  {
    SchemesDiffer();
    assert Decimal.Text(8) == "8" && Decimal.Text(80) == "80" && Decimal.Text(808) == "808";
    assert Decimal.Text(8080) == "8080";
    assert |LowerAll("::1")| != |LowerAll("::1:8080")|;
  }
}
