/** Redaction of whole URLs, found by scanning text rather than by parsing. */
module RedactUrl {
  import Base
  import opened Redact

  predicate IsAlpha(c: char)
  {
    'a' <= c <= 'z' || 'A' <= c <= 'Z'
  }

  predicate IsSchemeChar(c: char)
  {
    IsAlpha(c) || '0' <= c <= '9' || c == '+' || c == '-' || c == '.'
  }

  function ScanScheme(u: string, i: nat): (e: nat)
    ensures e == 0 || i + 3 <= e <= |u|
    decreases |u| - i
  {
    if i + 2 >= |u| then 0
    else if u[i] == ':' && u[i + 1] == '/' && u[i + 2] == '/' then i + 3
    else if !IsSchemeChar(u[i]) then 0
    else ScanScheme(u, i + 1)
  }

  /** Where the authority begins: after "scheme://" anchored at the start, or 0 for none. */
  function SchemeEnd(u: string): (e: nat)
    ensures e <= |u|
  {
    if u != "" && IsAlpha(u[0]) then ScanScheme(u, 1) else 0
  }

  predicate EndsAuthority(c: char)
  {
    c == '/' || c == '?' || c == '#'
  }

  function ScanAuthority(s: string, i: nat): (n: nat)
    requires i <= |s|
    ensures i <= n <= |s|
    decreases |s| - i
  {
    if i == |s| || EndsAuthority(s[i]) then i else ScanAuthority(s, i + 1)
  }

  function AuthorityLength(s: string): (n: nat)
    ensures n <= |s|
  {
    ScanAuthority(s, 0)
  }

  lemma {:induction false} AuthorityScanned(s: string, i: nat)
    requires i <= |s|
    ensures var n := ScanAuthority(s, i);
            (forall j :: i <= j < n ==> !EndsAuthority(s[j])) && (n < |s| ==> EndsAuthority(s[n]))
    decreases |s| - i
  {
    if i < |s| && !EndsAuthority(s[i]) {
      AuthorityScanned(s, i + 1);
    }
  }

  lemma AuthorityEndsAt(s: string, n: nat)
    requires n <= |s| && (forall j :: 0 <= j < n ==> !EndsAuthority(s[j])) && (n < |s| ==> EndsAuthority(s[n]))
    ensures AuthorityLength(s) == n
  {
    AuthorityScanned(s, 0);
  }

  /** Where the host begins: past the last '@' before position n. */
  function HostStart(s: string, n: nat): (k: nat)
    requires n <= |s|
    ensures k <= n
  {
    if n == 0 || s[n - 1] == '@' then n else HostStart(s, n - 1)
  }

  lemma {:induction false} HostStarts(s: string, n: nat)
    requires n <= |s|
    ensures var k := HostStart(s, n);
            (k > 0 ==> s[k - 1] == '@') && (forall j :: k <= j < n ==> s[j] != '@')
  {
    if n > 0 && s[n - 1] != '@' {
      HostStarts(s, n - 1);
    }
  }

  lemma HostStartsAt(s: string, k: nat)
    requires k <= |s| && (k > 0 ==> s[k - 1] == '@') && (forall j :: k <= j < |s| ==> s[j] != '@')
    ensures HostStart(s, |s|) == k
  {
    HostStarts(s, |s|);
  }

  /** What follows the last '@': userinfo is removed outright. */
  function HostPart(auth: string): string
  {
    auth[HostStart(auth, |auth|)..]
  }

  lemma HostPartIsClean(auth: string)
    ensures '@' !in HostPart(auth) && HostPart(HostPart(auth)) == HostPart(auth)
  {
    HostStarts(auth, |auth|);
    var h := HostPart(auth);
    HostStartsAt(h, 0);
    assert h[0..] == h;
  }

  // ---- path, query and fragment ----

  datatype Tail = Plain(text: string) | Query(head: string, query: string, frag: string)

  function SplitTail(r: string): Tail
  {
    var qm := FindChar(r, '?');
    if qm == |r| then Plain(r)
    else
      var after := r[qm + 1..];
      var hash := FindChar(after, '#');
      Query(r[..qm + 1], after[..hash], after[hash..])
  }

  function JoinTail(t: Tail): string
  {
    match t
    case Plain(text) => text
    case Query(head, query, frag) => head + query + frag
  }

  /** The first '?' ends the head, the first '#' after it ends the query. */
  predicate TailOk(t: Tail)
  {
    match t
    case Plain(text) => '?' !in text
    case Query(head, query, frag) =>
      && head != "" && head[|head| - 1] == '?' && (forall j :: 0 <= j < |head| - 1 ==> head[j] != '?')
      && '#' !in query && (frag != "" ==> frag[0] == '#')
  }

  lemma Rejoin(s: string, i: nat)
    requires i <= |s|
    ensures s[..i] + s[i..] == s
  {
  }

  lemma SplitTailOk(r: string)
    ensures TailOk(SplitTail(r)) && JoinTail(SplitTail(r)) == r
  {
    var qm := FindChar(r, '?');
    CharFound(r, '?');
    if qm < |r| {
      var after := r[qm + 1..];
      var hash := FindChar(after, '#');
      CharFound(after, '#');
      Rejoin(r, qm + 1);
      Rejoin(after, hash);
      Base.Regroup(r[..qm + 1], after[..hash], after[hash..]);
    }
  }

  lemma SplitOfJoinedTail(t: Tail)
    requires TailOk(t)
    ensures SplitTail(JoinTail(t)) == t
  {
    if t.Plain? {
      CharFoundAt(t.text, '?', |t.text|);
    } else {
      var r, after := JoinTail(t), t.query + t.frag;
      assert r == t.head + after;
      var k := |t.head| - 1;
      assert forall j :: 0 <= j < |t.head| ==> r[j] == t.head[j];
      CharFoundAt(r, '?', k);
      assert r[..k + 1] == t.head && r[k + 1..] == after;
      assert forall j :: 0 <= j < |t.query| ==> after[j] == t.query[j];
      CharFoundAt(after, '#', |t.query|);
      assert after[..|t.query|] == t.query && after[|t.query|..] == t.frag;
    }
  }

  function RedactTail(p: Policy, t: Tail): Tail
  {
    if t.Plain? then t else t.(query := RedactQuery(p, t.query))
  }

  /** The rest of a URL with its query's secret parameters replaced. */
  function Rest(p: Policy, r: string): string
  {
    JoinTail(RedactTail(p, SplitTail(r)))
  }

  // ---- the whole URL ----

  datatype Parts = Bare(rest: string) | Anchored(scheme: string, auth: string, rest: string)

  function SplitUrl(u: string): Parts
  {
    var se := SchemeEnd(u);
    if se == 0 then Bare(u)
    else
      var tail := u[se..];
      var n := AuthorityLength(tail);
      Anchored(u[..se], tail[..n], tail[n..])
  }

  function JoinUrl(x: Parts): string
  {
    match x
    case Bare(rest) => rest
    case Anchored(scheme, auth, rest) => scheme + auth + rest
  }

  function RedactParts(p: Policy, x: Parts): Parts
  {
    match x
    case Bare(rest) => Bare(Rest(p, rest))
    case Anchored(scheme, auth, rest) => Anchored(scheme, HostPart(auth), Rest(p, rest))
  }

  function Url(p: Policy, u: string): string
  {
    JoinUrl(RedactParts(p, SplitUrl(u)))
  }

  // ---- the source's scanning loops ----

  method FindSchemeEnd(u: string) returns (e: nat)
    ensures e == SchemeEnd(u)
  {
    e := 0;
    if u == "" || !IsAlpha(u[0]) {
      return;
    }
    var i := 1;
    while i + 2 < |u|
      invariant 1 <= i
      invariant e == 0 && ScanScheme(u, i) == SchemeEnd(u)
      decreases |u| - i
    {
      if u[i] == ':' && u[i + 1] == '/' && u[i + 2] == '/' {
        return i + 3;
      }
      if !IsSchemeChar(u[i]) {
        return 0;
      }
      i := i + 1;
    }
  }

  /** The authority, and the part of it after its last '@'. */
  method FindAuthority(u: string, se: nat) returns (from: nat, end: nat)
    requires se <= |u|
    ensures se <= from <= end <= |u|
    ensures end - se == AuthorityLength(u[se..])
    ensures u[from..end] == HostPart(u[se..end])
  {
    end := se;
    while end < |u| && !EndsAuthority(u[end])
      invariant se <= end <= |u|
      invariant forall j :: se <= j < end ==> !EndsAuthority(u[j])
    {
      end := end + 1;
    }
    AuthorityEndsAt(u[se..], end - se);
    from := se;
    var q := se;
    while q < end
      invariant se <= from <= q <= end
      invariant from > se ==> u[from - 1] == '@'
      invariant forall j :: from <= j < q ==> u[j] != '@'
    {
      if u[q] == '@' {
        from := q + 1;
      }
      q := q + 1;
    }
    HostStartsAt(u[se..end], from - se);
    InnerSlice(u, se, from, end);
  }

  lemma InnerSlice(u: string, a: nat, b: nat, c: nat)
    requires a <= b <= c <= |u|
    ensures u[a..c][b - a..] == u[b..c]
  {
  }

  lemma UrlOfAnchored(p: Policy, u: string, auth: string, rest: string)
    requires SchemeEnd(u) > 0
    requires var tail := u[SchemeEnd(u)..]; var n := AuthorityLength(tail); auth == tail[..n] && rest == tail[n..]
    ensures Url(p, u) == u[..SchemeEnd(u)] + HostPart(auth) + Rest(p, rest)
  {
    assert SplitUrl(u) == Anchored(u[..SchemeEnd(u)], auth, rest);
  }

  method RedactUrlText(p: Policy, u: string) returns (out: string)
    ensures out == Url(p, u)
  {
    var se := FindSchemeEnd(u);
    if se == 0 {
      out := RestText(p, u);
      return;
    }
    var from, end := FindAuthority(u, se);
    TailSlices(u, se, end);
    UrlOfAnchored(p, u, u[se..end], u[end..]);
    var rest := RestText(p, u[end..]);
    out := u[..se] + u[from..end] + rest;
  }

  lemma TailSlices(u: string, a: nat, b: nat)
    requires a <= b <= |u|
    ensures u[a..][..b - a] == u[a..b] && u[a..][b - a..] == u[b..]
  {
  }

  method RestText(p: Policy, r: string) returns (out: string)
    ensures out == Rest(p, r)
  {
    var t := SplitTail(r);
    if t.Plain? {
      return t.text;
    }
    var q := RedactQueryLoop(p, t.query);
    out := t.head + q + t.frag;
  }

  // ---- properties ----

  lemma {:induction false} NoNewHash(p: Policy, q: string)
    requires '#' !in q
    ensures '#' !in RedactQuery(p, q)
    decreases |q|
  {
    RedactQueryStep(p, q);
    var i := FindSep(q);
    if i < |q| {
      NoNewHash(p, q[i + 1..]);
      assert '#' !in q[..i];
      SegmentHasNoHash(p, q[..i]);
    } else {
      SegmentHasNoHash(p, q);
    }
  }

  lemma SegmentHasNoHash(p: Policy, seg: string)
    requires '#' !in seg
    ensures '#' !in RedactSegment(p, seg)
  {
    assert forall j :: 0 <= j < |REDACTED| ==> REDACTED[j] != '#';
  }

  lemma RedactTailOk(p: Policy, t: Tail)
    requires TailOk(t)
    ensures TailOk(RedactTail(p, t)) && RedactTail(p, RedactTail(p, t)) == RedactTail(p, t)
  {
    if t.Query? {
      NoNewHash(p, t.query);
      QueryIdempotent(p, t.query);
    }
  }

  lemma RestParts(p: Policy, r: string)
    ensures SplitTail(Rest(p, r)) == RedactTail(p, SplitTail(r))
  {
    SplitTailOk(r);
    RedactTailOk(p, SplitTail(r));
    SplitOfJoinedTail(RedactTail(p, SplitTail(r)));
  }

  lemma RestIdempotent(p: Policy, r: string)
    ensures Rest(p, Rest(p, r)) == Rest(p, r)
  {
    RestParts(p, r);
    SplitTailOk(r);
    RedactTailOk(p, SplitTail(r));
  }

  /** A scheme is recognised by its own characters alone. */
  lemma {:induction false} ScanDependsOnPrefix(u: string, v: string, i: nat)
    requires var e := ScanScheme(u, i); e > 0 && e <= |v| && v[..e] == u[..e]
    ensures ScanScheme(v, i) == ScanScheme(u, i)
    decreases |u| - i
  {
    var e := ScanScheme(u, i);
    assert v[..e][i] == u[..e][i] && v[..e][i + 1] == u[..e][i + 1] && v[..e][i + 2] == u[..e][i + 2];
    if !(u[i] == ':' && u[i + 1] == '/' && u[i + 2] == '/') {
      ScanDependsOnPrefix(u, v, i + 1);
    }
  }

  /** And text that has none up to its '?' has none whatever follows. */
  lemma {:induction false} ScanStopsAtQuery(u: string, v: string, k: nat, i: nat)
    requires i <= k < |u| && k < |v| && u[..k + 1] == v[..k + 1] && u[k] == '?'
    requires ScanScheme(u, i) == 0
    ensures ScanScheme(v, i) == 0
    decreases k - i
  {
    assert forall j :: 0 <= j <= k ==> u[..k + 1][j] == u[j] && v[..k + 1][j] == v[j];
    if i < k {
      if i + 2 >= |u| {
        assert k == i + 1;
      }
      assert !(v[i] == ':' && i + 2 < |v| && v[i + 1] == '/' && v[i + 2] == '/');
      if i + 2 < |v| && IsSchemeChar(v[i]) {
        assert ScanScheme(u, i + 1) == 0;
        ScanStopsAtQuery(u, v, k, i + 1);
      }
    }
  }

  lemma NoSchemeAppears(p: Policy, u: string)
    requires SchemeEnd(u) == 0
    ensures SchemeEnd(Rest(p, u)) == 0
  {
    SplitTailOk(u);
    var t := SplitTail(u);
    if t.Query? {
      var out, k := Rest(p, u), |t.head| - 1;
      SharedHead(t.head, t.query + t.frag, RedactQuery(p, t.query) + t.frag);
      Base.Regroup(t.head, t.query, t.frag);
      Base.Regroup(t.head, RedactQuery(p, t.query), t.frag);
      if IsAlpha(u[0]) {
        ScanStopsAtQuery(u, out, k, 1);
      }
    }
  }

  lemma SharedHead(h: string, x: string, y: string)
    ensures (h + x)[..|h|] == h == (h + y)[..|h|]
    ensures forall j :: 0 <= j < |h| ==> (h + x)[j] == h[j] == (h + y)[j]
  {
  }

  lemma StartsLikeRest(p: Policy, r: string)
    ensures Rest(p, r) == "" <==> r == ""
    ensures r != "" ==> Rest(p, r)[0] == r[0]
  {
    SplitTailOk(r);
    var t := SplitTail(r);
    if t.Query? {
      SharedHead(t.head, t.query + t.frag, RedactQuery(p, t.query) + t.frag);
      Base.Regroup(t.head, t.query, t.frag);
      Base.Regroup(t.head, RedactQuery(p, t.query), t.frag);
    }
  }

  /** A URL in parts: a scheme that is all scheme, an authority up to its delimiter, the rest. */
  predicate PartsOk(x: Parts)
  {
    match x
    case Bare(rest) => SchemeEnd(rest) == 0
    case Anchored(scheme, auth, rest) =>
      && 0 < SchemeEnd(scheme) == |scheme|
      && (forall j :: 0 <= j < |auth| ==> !EndsAuthority(auth[j]))
      && (rest != "" ==> EndsAuthority(rest[0]))
  }

  lemma SplitUrlOk(u: string)
    ensures PartsOk(SplitUrl(u)) && JoinUrl(SplitUrl(u)) == u
  {
    var se := SchemeEnd(u);
    if se > 0 {
      assert u[..se][..se] == u[..se];
      ScanDependsOnPrefix(u, u[..se], 1);
      var tail := u[se..];
      var n := AuthorityLength(tail);
      AuthorityScanned(tail, 0);
      Rejoin(u, se);
      Rejoin(tail, n);
      Base.Regroup(u[..se], tail[..n], tail[n..]);
    }
  }

  lemma SplitOfJoinedUrl(x: Parts)
    requires PartsOk(x)
    ensures SplitUrl(JoinUrl(x)) == x
  {
    if x.Anchored? {
      var u, tail := JoinUrl(x), x.auth + x.rest;
      Base.Regroup(x.scheme, x.auth, x.rest);
      SharedHead(x.scheme, "", tail);
      assert x.scheme + "" == x.scheme;
      ScanDependsOnPrefix(x.scheme, u, 1);
      assert u[..|x.scheme|] == x.scheme && u[|x.scheme|..] == tail;
      assert forall j :: 0 <= j < |x.auth| ==> tail[j] == x.auth[j];
      AuthorityEndsAt(tail, |x.auth|);
      assert tail[..|x.auth|] == x.auth && tail[|x.auth|..] == x.rest;
    }
  }

  lemma HostInsideAuthority(auth: string)
    requires forall j :: 0 <= j < |auth| ==> !EndsAuthority(auth[j])
    ensures forall j :: 0 <= j < |HostPart(auth)| ==> !EndsAuthority(HostPart(auth)[j])
  {
  }

  lemma RedactPartsOk(p: Policy, x: Parts)
    requires PartsOk(x)
    ensures PartsOk(RedactParts(p, x)) && RedactParts(p, RedactParts(p, x)) == RedactParts(p, x)
  {
    RestIdempotent(p, x.rest);
    if x.Bare? {
      NoSchemeAppears(p, x.rest);
    } else {
      StartsLikeRest(p, x.rest);
      HostPartIsClean(x.auth);
      HostInsideAuthority(x.auth);
    }
  }

  /** A redacted URL, read back, is the original part by part: same scheme, the authority without
      its userinfo, and the rest with only its query changed. */
  lemma UrlParts(p: Policy, u: string)
    ensures SplitUrl(Url(p, u)) == RedactParts(p, SplitUrl(u))
  {
    SplitUrlOk(u);
    RedactPartsOk(p, SplitUrl(u));
    SplitOfJoinedUrl(RedactParts(p, SplitUrl(u)));
  }

  /** A scheme as text: a letter, then letters, digits and "+-.". */
  predicate SchemeName(s: string)
  {
    s != "" && IsAlpha(s[0]) && forall j :: 0 <= j < |s| ==> IsSchemeChar(s[j])
  }

  lemma {:induction false} SchemeIsScanned(s: string, i: nat)
    requires SchemeName(s) && i <= |s|
    ensures ScanScheme(s + "://", i) == |s| + 3
    decreases |s| - i
  {
    if i < |s| {
      assert s[i] != ':';
      SchemeIsScanned(s, i + 1);
    }
  }

  /** What follows the authority, written out: the query loses its secrets, nothing else changes. */
  lemma RestAsWritten(p: Policy, path: string, query: string, frag: string)
    requires '?' !in path && '#' !in query && (frag != "" ==> frag[0] == '#')
    ensures Rest(p, path + "?" + query + frag) == path + "?" + RedactQuery(p, query) + frag
    ensures Rest(p, path) == path
  {
    SplitOfJoinedTail(Query(path + "?", query, frag));
    SplitOfJoinedTail(Plain(path));
  }

  lemma HostAsWritten(user: string, host: string, auth: string)
    requires '@' !in host && auth == user + "@" + host
    requires forall j :: 0 <= j < |user| ==> !EndsAuthority(user[j])
    requires forall j :: 0 <= j < |host| ==> !EndsAuthority(host[j])
    ensures HostPart(auth) == host && forall j :: 0 <= j < |auth| ==> !EndsAuthority(auth[j])
  {
    HostStartsAt(auth, |user| + 1);
  }

  lemma AnchoredUrl(p: Policy, anchor: string, auth: string, rest: string)
    requires 0 < SchemeEnd(anchor) == |anchor| && (rest != "" ==> EndsAuthority(rest[0]))
    requires forall j :: 0 <= j < |auth| ==> !EndsAuthority(auth[j])
    ensures Url(p, anchor + auth + rest) == anchor + HostPart(auth) + Rest(p, rest)
  {
    SplitOfJoinedUrl(Anchored(anchor, auth, rest));
  }

  /** Redaction on a URL written out part by part. The userinfo goes and its '@' with it; scheme and
      host stay. */
  lemma UrlAsWritten(p: Policy, scheme: string, user: string, host: string, rest: string)
    requires SchemeName(scheme) && '@' !in host && (rest != "" ==> EndsAuthority(rest[0]))
    requires forall j :: 0 <= j < |user| ==> !EndsAuthority(user[j])
    requires forall j :: 0 <= j < |host| ==> !EndsAuthority(host[j])
    ensures Url(p, scheme + "://" + (user + "@" + host) + rest) == scheme + "://" + host + Rest(p, rest)
  {
    SchemeIsScanned(scheme, 1);
    HostAsWritten(user, host, user + "@" + host);
    AnchoredUrl(p, scheme + "://", user + "@" + host, rest);
  }

  /** Without userinfo all of the authority stays. */
  lemma PlainUrlAsWritten(p: Policy, scheme: string, host: string, rest: string)
    requires SchemeName(scheme) && '@' !in host && (rest != "" ==> EndsAuthority(rest[0]))
    requires forall j :: 0 <= j < |host| ==> !EndsAuthority(host[j])
    ensures Url(p, scheme + "://" + host + rest) == scheme + "://" + host + Rest(p, rest)
  {
    SchemeIsScanned(scheme, 1);
    HostStartsAt(host, 0);
    assert HostPart(host) == host;
    AnchoredUrl(p, scheme + "://", host, rest);
  }

  /** Redacting twice is redacting once, for every text and policy. */
  lemma UrlIdempotent(p: Policy, u: string)
    ensures Url(p, Url(p, u)) == Url(p, u)
  {
    UrlParts(p, u);
    SplitUrlOk(u);
    RedactPartsOk(p, SplitUrl(u));
  }

  /** No userinfo survives in an anchored authority. */
  lemma NoUserinfoSurvives(p: Policy, u: string)
    ensures var x := SplitUrl(Url(p, u)); x.Anchored? ==> '@' !in x.auth
  {
    UrlParts(p, u);
    if SplitUrl(u).Anchored? {
      HostPartIsClean(SplitUrl(u).auth);
    }
  }

  /** Read back, what follows the authority differs in its query only. */
  lemma UrlTail(p: Policy, u: string)
    ensures SplitTail(SplitUrl(Url(p, u)).rest) == RedactTail(p, SplitTail(SplitUrl(u).rest))
  {
    UrlParts(p, u);
    RestParts(p, SplitUrl(u).rest);
  }

  lemma SegmentMarked(p: Policy, seg: string)
    ensures var eq := FindChar(seg, '=');
            RedactSegment(p, seg) ==
              if eq < |seg| && SecretParam(p, seg[..eq]) then seg[..eq] + "=" + REDACTED else seg
  {
    var eq := FindChar(seg, '=');
    CharFound(seg, '=');
    assert eq < |seg| ==> seg[..eq + 1] == seg[..eq] + "=";
  }

  /** Nor a secret value in the query: in the redacted URL every segment whose name, as written or
      as decoded, is secret reads "name=<redacted>", every other segment is the original one, and
      the separators are the original ones. */
  lemma SecretsAreMarked(p: Policy, u: string, k: nat)
    requires SplitTail(SplitUrl(u).rest).Query?
    requires k < |Segments(SplitTail(SplitUrl(u).rest).query)|
    ensures var was, now := SplitTail(SplitUrl(u).rest), SplitTail(SplitUrl(Url(p, u)).rest);
            && now.Query? && now.head == was.head && now.frag == was.frag
            && Separators(now.query) == Separators(was.query)
            && |Segments(now.query)| == |Segments(was.query)|
            && var seg := Segments(was.query)[k]; var eq := FindChar(seg, '=');
               Segments(now.query)[k] ==
                 if eq < |seg| && SecretParam(p, seg[..eq]) then seg[..eq] + "=" + REDACTED else seg
  {
    var q := SplitTail(SplitUrl(u).rest).query;
    UrlTail(p, u);
    RedactedQueryShape(p, q);
    SegmentMarked(p, Segments(q)[k]);
  }
}
