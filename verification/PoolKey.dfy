/** The connection pool's key: what it compares, and how the engine builds it.
    Two clients may share a connection exactly when their settings agree. */
module PoolKey {
  import opened Ascii
  import Base
  import Decimal

  /** A C string that may be NULL; NULL and "" differ. */
  datatype CStr = Null | Str(s: string)

  datatype Key = Key(
    scheme: CStr, host: CStr, port: nat, proxy: CStr,
    verifyPeer: int, verifyHostname: int, revocation: int, minVersion: int,
    alpn: CStr, http2: int,
    caFile: CStr, caExtraFile: CStr, caDataId: CStr, pins: CStr, clientCert: CStr)

  predicate StrEqCi(a: CStr, b: CStr)
  {
    a == b || (a.Str? && b.Str? && CaseEq(a.s, b.s))
  }

  /** Field by field, scheme and host up to ASCII case, everything else exactly. */
  predicate KeyEq(a: Key, b: Key)
  {
    && a.port == b.port && a.verifyPeer == b.verifyPeer && a.verifyHostname == b.verifyHostname
    && a.revocation == b.revocation && a.minVersion == b.minVersion && a.http2 == b.http2
    && StrEqCi(a.scheme, b.scheme) && StrEqCi(a.host, b.host)
    && a.proxy == b.proxy && a.alpn == b.alpn
    && a.caFile == b.caFile && a.caExtraFile == b.caExtraFile && a.caDataId == b.caDataId
    && a.pins == b.pins && a.clientCert == b.clientCert
  }

  /** The per-host cap groups entries by (scheme, host, port). */
  predicate SameHost(a: Key, b: Key)
  {
    a.port == b.port && StrEqCi(a.scheme, b.scheme) && StrEqCi(a.host, b.host)
  }

  function Fold(c: CStr): CStr
  {
    if c.Null? then Null else Str(LowerAll(c.s))
  }

  lemma FoldDecides(a: CStr, b: CStr)
    ensures StrEqCi(a, b) <==> Fold(a) == Fold(b)
  {
  }

  /** No field is ignored: equal keys are keys equal up to the case of scheme and host, so the
      comparison is an equivalence, and it refines the per-host grouping. */
  lemma KeyEqIsCanonicalEquality(a: Key, b: Key)
    ensures KeyEq(a, b) <==>
            a.(scheme := Fold(a.scheme), host := Fold(a.host))
            == b.(scheme := Fold(b.scheme), host := Fold(b.host))
    ensures SameHost(a, b) <==> (a.port, Fold(a.scheme), Fold(a.host)) == (b.port, Fold(b.scheme), Fold(b.host))
    ensures KeyEq(a, b) ==> SameHost(a, b)
  {
    FoldDecides(a.scheme, b.scheme);
    FoldDecides(a.host, b.host);
  }

  // ---- the proxy identity: length-prefixed fields ----

  function Field(s: string): string
  {
    Decimal.Text(|s|) + ":" + s
  }

  function Fields(fs: seq<string>): string
  {
    if fs == [] then "" else Field(fs[0]) + Fields(fs[1..])
  }

  /** A field is self-delimiting: whatever follows, the length says where it ends. */
  lemma FieldIsPrefixFree(a: string, x: string, b: string, y: string)
    requires Field(a) + x == Field(b) + y
    ensures a == b && x == y
  {
    var la, lb := Decimal.Text(|a|), Decimal.Text(|b|);
    Decimal.TextValue(|a|);
    Decimal.TextValue(|b|);
    assert Field(a) + x == la + [':'] + (a + x);
    assert Field(b) + y == lb + [':'] + (b + y);
    CutAtSeparator(la, a + x, lb, b + y, ':');
    SplitByLength(a, x, b, y);
  }

  lemma SplitByLength(a: string, x: string, b: string, y: string)
    requires a + x == b + y && |a| == |b|
    ensures a == b && x == y
  {
    assert (a + x)[..|a|] == a && (b + y)[..|b|] == b;
    assert (a + x)[|a|..] == x && (b + y)[|b|..] == y;
  }

  /** The encoding of a field list is injective for all strings, separators included. */
  lemma {:induction false} FieldsInjective(fs: seq<string>, gs: seq<string>)
    requires |fs| == |gs| && Fields(fs) == Fields(gs)
    ensures fs == gs
  {
    if fs != [] {
      FieldIsPrefixFree(fs[0], Fields(fs[1..]), gs[0], Fields(gs[1..]));
      FieldsInjective(fs[1..], gs[1..]);
      assert fs == [fs[0]] + fs[1..] && gs == [gs[0]] + gs[1..];
    }
  }

  datatype Proxy = Proxy(inUse: bool, scheme: CStr, username: CStr, password: CStr, host: CStr, port: nat)

  function OrElse(c: CStr, d: string): string
  {
    if c.Null? then d else c.s
  }

  /** The five fields with their defaults, as the engine lists them. */
  function ProxyFields(px: Proxy): seq<string>
  {
    [OrElse(px.scheme, "http"), OrElse(px.username, ""), OrElse(px.password, ""),
     OrElse(px.host, ""), Decimal.Text(px.port)]
  }

  /** The joining loop, one length-prefixed field at a time. */
  method JoinFields(f: seq<string>) returns (r: string)
    requires forall i :: 0 <= i < |f| ==> |f[i]| <= Base.U64_MAX
    ensures r == Fields(f)
  {
    r := "";
    var i := 0;
    while i < |f|
      invariant 0 <= i <= |f|
      invariant r + Fields(f[i..]) == Fields(f)
    {
      ghost var rest := f[i..];
      assert rest[1..] == f[i + 1..];
      assert r + (Field(f[i]) + Fields(f[i + 1..])) == Fields(f);
      var counted := Decimal.AppendU64(r, |f[i]|);
      assert counted + ":" + f[i] == r + Field(f[i]);
      assert r + Field(f[i]) + Fields(f[i + 1..]) == Fields(f);
      r := counted + ":" + f[i];
      i := i + 1;
    }
    assert f[i..] == [];
  }

  // ---- the engine's key ----

  datatype Tls = NoTls | Tls(revocation: int, minVersion: int, caExtraFile: CStr, pins: seq<string>)

  datatype Options = Options(verify: int, caFile: CStr, tls: Tls, http2: int)

  const SEP: char := 31 as char

  function JoinPins(pins: seq<string>): string
  {
    if pins == [] then "" else pins[0] + [SEP] + JoinPins(pins[1..])
  }

  predicate PlainPins(pins: seq<string>)
  {
    forall p :: p in pins ==> SEP !in p
  }

  /** How many separators a text holds. */
  function Seps(s: string): nat
  {
    if s == "" then 0 else (if s[0] == SEP then 1 else 0) + Seps(s[1..])
  }

  lemma {:induction false} SepsOfConcat(a: string, b: string)
    ensures Seps(a + b) == Seps(a) + Seps(b)
  {
    if a == "" {
      assert a + b == b;
    } else {
      SepsOfConcat(a[1..], b);
      assert (a + b)[1..] == a[1..] + b;
    }
  }

  function SepCounts(pins: seq<string>): seq<nat>
  {
    if pins == [] then [] else [Seps(pins[0])] + SepCounts(pins[1..])
  }

  /** The longer of two heads of one text that end before a separator holds that separator. */
  lemma LongerHeadHasMore(p: string, x: string, q: string, y: string)
    requires p + [SEP] + x == q + [SEP] + y && |p| < |q|
    ensures Seps(p) < Seps(q)
  {
    var w := p + [SEP] + x;
    assert q == w[..|q|] && p == w[..|p|] && w[|p|] == SEP;
    assert q == p + [SEP] + q[|p| + 1..];
    SepsOfConcat(p + [SEP], q[|p| + 1..]);
    SepsOfConcat(p, [SEP]);
  }

  lemma HeadsAgree(p: string, x: string, q: string, y: string)
    requires p + [SEP] + x == q + [SEP] + y && Seps(p) == Seps(q)
    ensures p == q && x == y
  {
    if |p| < |q| {
      LongerHeadHasMore(p, x, q, y);
    } else if |q| < |p| {
      LongerHeadHasMore(q, y, p, x);
    } else {
      var w := p + [SEP] + x;
      assert p == w[..|p|] && q == w[..|q|];
      assert x == w[|p| + 1..] && y == w[|q| + 1..];
    }
  }

  /** The joined text and the separators counted pin by pin determine the list, whatever the pins. */
  lemma {:induction false} JoinDecides(ps: seq<string>, qs: seq<string>)
    ensures JoinPins(ps) == JoinPins(qs) && SepCounts(ps) == SepCounts(qs) <==> ps == qs
  {
    if JoinPins(ps) == JoinPins(qs) && SepCounts(ps) == SepCounts(qs) && ps != [] {
      assert qs != [];
      assert Seps(ps[0]) == SepCounts(ps)[0] && Seps(qs[0]) == SepCounts(qs)[0];
      HeadsAgree(ps[0], JoinPins(ps[1..]), qs[0], JoinPins(qs[1..]));
      assert SepCounts(ps[1..]) == SepCounts(ps)[1..] && SepCounts(qs[1..]) == SepCounts(qs)[1..];
      JoinDecides(ps[1..], qs[1..]);
      assert ps == [ps[0]] + ps[1..] && qs == [qs[0]] + qs[1..];
    }
  }

  lemma {:induction false} NoSeps(s: string)
    ensures Seps(s) == 0 <==> SEP !in s
  {
    if s != "" {
      NoSeps(s[1..]);
      assert s == [s[0]] + s[1..];
    }
  }

  /** Plain pins hold no separator, so the joined text has one for each. */
  lemma {:induction false} PlainCounts(ps: seq<string>)
    requires PlainPins(ps)
    ensures Seps(JoinPins(ps)) == |ps|
    ensures SepCounts(ps) == seq(|ps|, i => 0)
  {
    if ps != [] {
      assert ps[0] in ps && PlainPins(ps[1..]);
      PlainCounts(ps[1..]);
      NoSeps(ps[0]);
      SepsOfConcat(ps[0] + [SEP], JoinPins(ps[1..]));
      SepsOfConcat(ps[0], [SEP]);
      assert seq(|ps|, i => 0) == [0] + seq(|ps| - 1, i => 0);
    }
  }

  /** The form a pin must have to be configured at all: a digest in base 64. */
  ghost predicate ValidPin(p: string)
  {
    && |p| > 8 && p[..8] == "sha256//"
    && exists k :: 8 < k <= |p| && Base64(p[8..k]) && forall j :: k <= j < |p| ==> p[j] == '='
  }

  predicate Base64(s: string)
  {
    forall j :: 0 <= j < |s| ==>
      'A' <= s[j] <= 'Z' || 'a' <= s[j] <= 'z' || '0' <= s[j] <= '9' || s[j] == '+' || s[j] == '/'
  }

  lemma ValidPinsArePlain(ps: seq<string>)
    requires forall p :: p in ps ==> ValidPin(p)
    ensures PlainPins(ps)
  {
    forall p | p in ps
      ensures SEP !in p
    {
      var k :| 8 < k <= |p| && Base64(p[8..k]) && forall j :: k <= j < |p| ==> p[j] == '=';
      forall j | 0 <= j < |p|
        ensures p[j] != SEP
      {
        if j < 8 {
          assert p[j] == p[..8][j] == "sha256//"[j];
        } else if j < k {
          assert p[j] == p[8..k][j - 8];
        }
      }
    }
  }

  function AlpnFor(http2: int): string
  {
    if http2 == 0 then "http/1.1" else "h2,http/1.1"
  }

  function EngineKey(https: bool, host: string, port: nat, o: Options, px: Proxy): Key
  {
    Key(Str(if https then "https" else "http"), Str(host), port,
        if px.inUse then Str(Fields(ProxyFields(px))) else Null,
        o.verify, o.verify,
        if o.tls.Tls? then o.tls.revocation else 0, if o.tls.Tls? then o.tls.minVersion else 0,
        if https then Str(AlpnFor(o.http2)) else Null, o.http2,
        o.caFile, if o.tls.Tls? then o.tls.caExtraFile else Null, Null,
        if o.tls.Tls? && |o.tls.pins| > 0 then Str(JoinPins(o.tls.pins)) else Null, Null)
  }

  function Pins(o: Options): seq<string>
  {
    if o.tls.Tls? then o.tls.pins else []
  }

  /** Everything two requests must agree on to share a connection. */
  ghost predicate SameIdentity(https1: bool, host1: string, port1: nat, o1: Options, px1: Proxy,
                               https2: bool, host2: string, port2: nat, o2: Options, px2: Proxy)
  {
    && https1 == https2 && CaseEq(host1, host2) && port1 == port2
    && o1.verify == o2.verify && o1.caFile == o2.caFile && o1.http2 == o2.http2
    && (if o1.tls.Tls? then (o1.tls.revocation, o1.tls.minVersion, o1.tls.caExtraFile) else (0, 0, Null))
       == (if o2.tls.Tls? then (o2.tls.revocation, o2.tls.minVersion, o2.tls.caExtraFile) else (0, 0, Null))
    && Pins(o1) == Pins(o2)
    && px1.inUse == px2.inUse
    && (px1.inUse ==>
          && OrElse(px1.scheme, "http") == OrElse(px2.scheme, "http")
          && OrElse(px1.username, "") == OrElse(px2.username, "")
          && OrElse(px1.password, "") == OrElse(px2.password, "")
          && OrElse(px1.host, "") == OrElse(px2.host, "")
          && px1.port == px2.port)
  }

  lemma PinsDecided(o1: Options, o2: Options)
    ensures (if |Pins(o1)| > 0 then Str(JoinPins(Pins(o1))) else Null)
            == (if |Pins(o2)| > 0 then Str(JoinPins(Pins(o2))) else Null)
            && SepCounts(Pins(o1)) == SepCounts(Pins(o2))
            <==> Pins(o1) == Pins(o2)
  {
    JoinDecides(Pins(o1), Pins(o2));
  }

  lemma ProxyDecided(px1: Proxy, px2: Proxy)
    ensures Fields(ProxyFields(px1)) == Fields(ProxyFields(px2)) <==> ProxyFields(px1) == ProxyFields(px2)
    ensures ProxyFields(px1) == ProxyFields(px2) <==>
            && OrElse(px1.scheme, "http") == OrElse(px2.scheme, "http")
            && OrElse(px1.username, "") == OrElse(px2.username, "")
            && OrElse(px1.password, "") == OrElse(px2.password, "")
            && OrElse(px1.host, "") == OrElse(px2.host, "")
            && px1.port == px2.port
  {
    var f, g := ProxyFields(px1), ProxyFields(px2);
    if Fields(f) == Fields(g) {
      FieldsInjective(f, g);
    }
    if f == g {
      assert f[0] == g[0] && f[1] == g[1] && f[2] == g[2] && f[3] == g[3] && f[4] == g[4];
      Decimal.TextInjective(px1.port, px2.port);
    }
  }

  /** The key is neither coarse nor needlessly fine: two requests get equal keys, and as many
      separators in each pin, if and only if they agree on origin, verification, trust, pins,
      protocol mode and full proxy identity, credentials included. */
  lemma KeyDecidesIdentity(https1: bool, host1: string, port1: nat, o1: Options, px1: Proxy,
                           https2: bool, host2: string, port2: nat, o2: Options, px2: Proxy)
    ensures KeyEq(EngineKey(https1, host1, port1, o1, px1), EngineKey(https2, host2, port2, o2, px2))
            && SepCounts(Pins(o1)) == SepCounts(Pins(o2))
            <==> SameIdentity(https1, host1, port1, o1, px1, https2, host2, port2, o2, px2)
  {
    PinsDecided(o1, o2);
    ProxyDecided(px1, px2);
    assert |LowerAll("https")| != |LowerAll("http")|;
    var a, b := EngineKey(https1, host1, port1, o1, px1), EngineKey(https2, host2, port2, o2, px2);
    assert StrEqCi(a.scheme, b.scheme) <==> https1 == https2;
    assert a.proxy == b.proxy <==> (px1.inUse == px2.inUse && (px1.inUse ==> ProxyFields(px1) == ProxyFields(px2)));
    assert (a.pins == b.pins && SepCounts(Pins(o1)) == SepCounts(Pins(o2))) <==> Pins(o1) == Pins(o2);
  }

  /** With pins of the form that can be configured the key alone decides. */
  lemma ConfiguredKeyDecides(https1: bool, host1: string, port1: nat, o1: Options, px1: Proxy,
                             https2: bool, host2: string, port2: nat, o2: Options, px2: Proxy)
    requires PlainPins(Pins(o1)) && PlainPins(Pins(o2))
    ensures KeyEq(EngineKey(https1, host1, port1, o1, px1), EngineKey(https2, host2, port2, o2, px2))
            <==> SameIdentity(https1, host1, port1, o1, px1, https2, host2, port2, o2, px2)
  {
    KeyDecidesIdentity(https1, host1, port1, o1, px1, https2, host2, port2, o2, px2);
    PlainCounts(Pins(o1));
    PlainCounts(Pins(o2));
  }
}
