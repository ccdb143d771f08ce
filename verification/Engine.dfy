/** The engine's hop loop: one request after another along a redirect chain, over connections it
    opens, hands over or gives back, and a request body that may be a one-shot source. The world
    outside (proxies, sockets, servers, memory) answers each hop as it likes. */
module Engine {
  import opened Base
  import opened Ascii
  import opened Uri
  import opened Redact
  import opened Inflate
  import opened Body
  import opened Reader
  import opened Reuse
  import opened Exchange
  import opened Filter
  import H2Body
  import Headers
  import Redirect
  import Response

  type Header = Headers.Header

  datatype Spec = Spec(method_: string, headers: seq<Header>, body: seq<Byte>, source: bool)

  /** `http2` is 0 for off, 1 for when offered, 2 for required. */
  datatype Opts = Opts(maxRedirects: int, streamBody: bool, sink: bool, policy: Policy,
                       pool: bool, http2: int, maxBody: nat, noDecode: bool)

  /** A request put on the wire: the caller's headers it carried and the body it was given. */
  datatype Sent = Sent(method_: string, uri: Uri, carried: seq<Header>, body: seq<Byte>, streamed: bool)

  datatype Location = NoLocation | BadLocation | To(uri: Uri)

  // ---- how the outside answers one hop ----

  /** Getting a connection: from the pool, from a backend that dials itself, or by TCP, a tunnel
      through the proxy and TLS. */
  datatype Opening = Opening(key: bool, pooled: bool, backend: bool, dialRc: Code, via: bool,
                             tunnelRc: Code, tls: bool, tlsRc: Code)

  datatype Choice = Choice(isH2: bool, negotiated: bool, wrapRc: Code)

  /** The request's parts, each of which can fail to be built. */
  datatype Build = Build(hostFits: bool, absInit: bool, absForm: bool, auth: Code, accept: Code,
                         headers: Code, wire: bool, rest: Code)

  datatype Http1 = Http1(script: seq<Read>, parse: Response.Parser, memory: nat -> bool, framing: Code,
                         kind: Kind, poolable: bool, close: bool, keepAlive: bool, minor: nat)

  datatype Http2 = Http2(beginRc: Code, bodiless: bool, script: seq<H2Body.Arrival>, goaway: bool,
                         allowed: bool, flushes: bool)

  datatype Coding = Identity | Coded(enc: Encoding) | Unsupported

  datatype Hop = Hop(proxyRc: Code, opening: Opening, choice: Choice, build: Build, sendRc: Code, room: bool,
                     h1: Http1, h2: Http2, status: int, location: Location, coding: Coding,
                     pipeRc: Code, openRc: Code, env: nat -> Env, stopped: bool)

  /** What the seams below promise: reads carry bytes, and a head lies within what was read. */
  ghost predicate FairHop(hop: Hop)
  {
    Proper(hop.h1.script) && Response.Sane(hop.h1.parse)
  }

  ghost predicate Fair(env: nat -> Hop)
  {
    forall i :: FairHop(env(i))
  }

  // ---- connections ----

  datatype How = Dropped | Finished(reason: Reason)
  datatype Disposal = Disposal(stream: nat, how: How)

  /** A variable that may hold a connection. */
  datatype Handle = None | Held(stream: nat)

  /** What a run did: requests sent, connections obtained and disposed of, and the one handed to a
      pulled body. */
  datatype Log = Log(requests: seq<Sent>, obtained: nat, disposed: seq<Disposal>, handed: Handle)

  /** Where the streamed source is: with the engine, with the pulled body, or released. */
  datatype Custody = Custody(engine: bool, body: bool, releases: nat)

  function Times(ds: seq<Disposal>, s: nat): nat
  {
    if ds == [] then 0 else Times(ds[..|ds| - 1], s) + (if ds[|ds| - 1].stream == s then 1 else 0)
  }

  function In(h: Handle, s: nat): nat
  {
    if h == Held(s) then 1 else 0
  }

  /** Every connection obtained is in exactly one place: in hand, handed over, or disposed of. */
  ghost predicate Owned(l: Log, hand: Handle)
  {
    forall s: nat :: Times(l.disposed, s) + In(hand, s) + In(l.handed, s) == if s < l.obtained then 1 else 0
  }

  function Send(l: Log, s: Sent): Log
  {
    l.(requests := l.requests + [s])
  }

  method Obtain(l0: Log) returns (l: Log, s: Handle)
    requires Owned(l0, None)
    ensures Owned(l, s) && s.Held? && l == l0.(obtained := l0.obtained + 1)
  {
    l, s := l0.(obtained := l0.obtained + 1), Held(l0.obtained);
    forall t: nat
      ensures Times(l.disposed, t) + In(s, t) + In(l.handed, t) == if t < l.obtained then 1 else 0
    {
      assert Times(l0.disposed, t) + In(None, t) + In(l0.handed, t) == if t < l0.obtained then 1 else 0;
    }
  }

  /** Part with what is in hand, if anything, and record how. */
  method Dispose(l0: Log, s: Handle, how: How) returns (l: Log)
    requires Owned(l0, s)
    ensures Owned(l, None)
    ensures l == if s.None? then l0 else l0.(disposed := l0.disposed + [Disposal(s.stream, how)])
    ensures Reused(l.disposed) == Reused(l0.disposed) + (if s.Held? && how == Finished(ReuseOk) then 1 else 0)
  {
    l := l0;
    if s.Held? {
      l := l0.(disposed := l0.disposed + [Disposal(s.stream, how)]);
      forall t: nat
        ensures Times(l.disposed, t) + In(None, t) + In(l.handed, t) == if t < l.obtained then 1 else 0
      {
        assert l.disposed[..|l.disposed| - 1] == l0.disposed;
        assert Times(l0.disposed, t) + In(s, t) + In(l0.handed, t) == if t < l0.obtained then 1 else 0;
      }
    }
  }

  /** Give what is in hand to a pulled body. */
  method HandOver(l0: Log, s: Handle) returns (l: Log)
    requires Owned(l0, s) && l0.handed.None?
    ensures Owned(l, None) && l == l0.(handed := s)
  {
    l := l0.(handed := s);
    forall t: nat
      ensures Times(l.disposed, t) + In(None, t) + In(l.handed, t) == if t < l.obtained then 1 else 0
    {
      assert Times(l0.disposed, t) + In(s, t) + In(l0.handed, t) == if t < l0.obtained then 1 else 0;
    }
  }

  /** Take it back, to free it. */
  method TakeBack(l0: Log) returns (l: Log, s: Handle)
    requires Owned(l0, None)
    ensures Owned(l, s) && s == l0.handed && l == l0.(handed := None)
  {
    l, s := l0.(handed := None), l0.handed;
    forall t: nat
      ensures Times(l.disposed, t) + In(s, t) + In(l.handed, t) == if t < l.obtained then 1 else 0
    {
      assert Times(l0.disposed, t) + In(None, t) + In(l0.handed, t) == if t < l0.obtained then 1 else 0;
    }
  }

  // ---- headers ----

  /** A caller's header that goes along: all but the framing's and, when stripping, credentials. */
  function Goes(p: Policy, strip: bool): Header -> bool
  {
    (h: Header) => !CaseEq(h.name, "Content-Length") && !(strip && SecretHeader(p, h.name))
  }

  /** The caller's headers, less credentials after a cross-origin hop and less framing. */
  method CarryHeaders(o: Opts, strip: bool, headers: seq<Header>) returns (carried: seq<Header>)
    ensures carried == Keep(headers, Goes(o.policy, strip))
    ensures forall h :: h in carried <==>
      h in headers && !CaseEq(h.name, "Content-Length") && !(strip && SecretHeader(o.policy, h.name))
  {
    ghost var goes := Goes(o.policy, strip);
    carried := [];
    var i := 0;
    while i < |headers|
      invariant 0 <= i <= |headers| && carried == Keep(headers[..i], goes)
    {
      KeepNext(headers, goes, i);
      var secret := strip && SecretHeader(o.policy, headers[i].name);
      if !secret && !CaseEq(headers[i].name, "Content-Length") {
        carried := carried + [headers[i]];
      }
      i := i + 1;
    }
    assert headers[..i] == headers;
    forall h
      ensures h in carried <==> h in headers && goes(h)
    {
      KeepIs(headers, goes, h);
    }
  }

  predicate CarriesSecret(p: Policy, s: Sent)
  {
    exists h :: h in s.carried && SecretHeader(p, h.name)
  }

  // ---- the chain ----

  /** What holds between any two requests of a run, the earlier at i, the later at j. */
  ghost predicate Ordered(p: Policy, a: Sent, b: Sent)
  {
    && TrailKey(a.method_, a.uri) != TrailKey(b.method_, b.uri)
    && (a.uri.https ==> b.uri.https)
    && (a.body == [] ==> b.body == [])
    && !b.streamed
    && (CarriesSecret(p, b) ==> SameOrigin(a.uri, b.uri))
  }

  /** Every one of these requests is ordered with the one after them all. */
  ghost predicate AllOrdered(p: Policy, rs: seq<Sent>, next: Sent)
  {
    rs == [] || (AllOrdered(p, rs[..|rs| - 1], next) && Ordered(p, rs[|rs| - 1], next))
  }

  /** These requests, going on to the next place, have changed origin on the way. */
  predicate Strayed(rs: seq<Sent>, to: Uri)
  {
    rs != [] && var n := |rs| - 1; Strayed(rs[..n], rs[n].uri) || !SameOrigin(rs[n].uri, to)
  }

  ghost predicate Chain(o: Opts, spec: Spec, rs: seq<Sent>)
  {
    rs == [] ||
    var n := |rs| - 1;
    && Chain(o, spec, rs[..n]) && AllOrdered(o.policy, rs[..n], rs[n])
    && (rs[n].body == [] || rs[n].body == spec.body)
    && rs[n].carried == Keep(spec.headers, Goes(o.policy, Strayed(rs[..n], rs[n].uri)))
  }

  lemma {:induction false} OrderedAt(p: Policy, rs: seq<Sent>, next: Sent, i: nat)
    requires AllOrdered(p, rs, next) && i < |rs|
    ensures Ordered(p, rs[i], next)
  {
    if i < |rs| - 1 {
      OrderedAt(p, rs[..|rs| - 1], next, i);
    }
  }

  /** Any two requests of a chain are ordered. */
  lemma {:induction false} ChainPair(o: Opts, spec: Spec, rs: seq<Sent>, i: nat, j: nat)
    requires Chain(o, spec, rs) && i < j < |rs|
    ensures Ordered(o.policy, rs[i], rs[j])
  {
    if j < |rs| - 1 {
      ChainPair(o, spec, rs[..|rs| - 1], i, j);
    } else {
      OrderedAt(o.policy, rs[..|rs| - 1], rs[j], i);
    }
  }

  /** The request after the k-th goes to another origin. */
  predicate Leaves(rs: seq<Sent>, k: nat)
    requires k + 1 < |rs|
  {
    !SameOrigin(rs[k].uri, rs[k + 1].uri)
  }

  /** Which of the caller's headers each request of a chain carries: all of them but Content-Length
      and, once two requests in succession differed in origin, the secret ones. */
  lemma HeadersSent(o: Opts, spec: Spec, rs: seq<Sent>, i: nat, h: Header)
    requires Chain(o, spec, rs) && i < |rs|
    ensures h in rs[i].carried <==>
      && h in spec.headers && !CaseEq(h.name, "Content-Length")
      && !(SecretHeader(o.policy, h.name) && exists k :: 0 <= k < i && Leaves(rs, k))
  {
    CarriedAt(o, spec, rs, i);
    StrayedMeans(rs, i);
    KeepIs(spec.headers, Goes(o.policy, Strayed(rs[..i], rs[i].uri)), h);
  }

  lemma {:induction false} CarriedAt(o: Opts, spec: Spec, rs: seq<Sent>, i: nat)
    requires Chain(o, spec, rs) && i < |rs|
    ensures rs[i].carried == Keep(spec.headers, Goes(o.policy, Strayed(rs[..i], rs[i].uri)))
  {
    if i < |rs| - 1 {
      var before := rs[..|rs| - 1];
      assert before[i] == rs[i] && before[..i] == rs[..i];
      CarriedAt(o, spec, before, i);
    } else {
      assert rs[..i] == rs[..|rs| - 1];
    }
  }

  lemma {:induction false} StrayedMeans(rs: seq<Sent>, i: nat)
    requires i < |rs|
    ensures Strayed(rs[..i], rs[i].uri) <==> exists k :: 0 <= k < i && Leaves(rs, k)
  {
    if i > 0 {
      StrayedMeans(rs, i - 1);
      StrayedStep(rs, i);
      LeavesStep(rs, i);
    }
  }

  lemma LeavesStep(rs: seq<Sent>, i: nat)
    requires 0 < i < |rs|
    ensures (exists k :: 0 <= k < i && Leaves(rs, k)) <==>
            Leaves(rs, i - 1) || exists k :: 0 <= k < i - 1 && Leaves(rs, k)
  {
  }

  lemma StrayedStep(rs: seq<Sent>, i: nat)
    requires 0 < i < |rs|
    ensures Strayed(rs[..i], rs[i].uri) <==> Strayed(rs[..i - 1], rs[i - 1].uri) || Leaves(rs, i - 1)
  {
    var before := rs[..i];
    assert before[..|before| - 1] == rs[..i - 1] && before[|before| - 1] == rs[i - 1];
  }

  /** The loop's variables: where to go next, with what, and the trail of requests so far. */
  datatype Cursor = Cursor(uri: Uri, method_: string, body: seq<Byte>, strip: bool, live: bool, trail: seq<string>)

  function Key(s: Sent): string
  {
    TrailKey(s.method_, s.uri)
  }

  function Keys(rs: seq<Sent>): seq<string>
  {
    if rs == [] then [] else Keys(rs[..|rs| - 1]) + [Key(rs[|rs| - 1])]
  }

  predicate NoRepeat(keys: seq<string>)
  {
    keys == [] || (NoRepeat(keys[..|keys| - 1]) && keys[|keys| - 1] !in keys[..|keys| - 1])
  }

  /** How the request to come relates to one already sent. */
  ghost predicate Leads(c: Cursor, s: Sent)
  {
    && (s.uri.https ==> c.uri.https)
    && (s.body == [] ==> c.body == [])
    && (!c.strip ==> SameOrigin(s.uri, c.uri))
  }

  ghost predicate LeadsAll(c: Cursor, rs: seq<Sent>)
  {
    rs == [] || (LeadsAll(c, rs[..|rs| - 1]) && Leads(c, rs[|rs| - 1]))
  }

  /** What the loop knows before it sends the next request. */
  ghost predicate Ready(spec: Spec, rs: seq<Sent>, c: Cursor)
  {
    && c.trail == Keys(rs) + [TrailKey(c.method_, c.uri)] && NoRepeat(c.trail)
    && (c.body == [] || c.body == spec.body)
    && (c.live ==> rs == [] && spec.source)
    && c.strip == Strayed(rs, c.uri)
    && LeadsAll(c, rs)
  }

  lemma {:induction false} OrderedByLeads(p: Policy, rs: seq<Sent>, c: Cursor, next: Sent)
    requires LeadsAll(c, rs) && Key(next) !in Keys(rs)
    requires next.uri == c.uri && next.body == c.body && (rs != [] ==> !next.streamed)
    requires c.strip ==> !CarriesSecret(p, next)
    ensures AllOrdered(p, rs, next)
  {
    if rs != [] {
      assert Key(rs[|rs| - 1]) in Keys(rs);
      OrderedByLeads(p, rs[..|rs| - 1], c, next);
    }
  }

  lemma ChainGrows(o: Opts, spec: Spec, rs: seq<Sent>, c: Cursor, carried: seq<Header>)
    requires Chain(o, spec, rs) && Ready(spec, rs, c)
    requires c.strip ==> forall h :: h in carried ==> !SecretHeader(o.policy, h.name)
    requires carried == Keep(spec.headers, Goes(o.policy, c.strip))
    ensures Chain(o, spec, rs + [Sent(c.method_, c.uri, carried, c.body, c.live)])
  {
    var next := Sent(c.method_, c.uri, carried, c.body, c.live);
    assert c.trail[..|c.trail| - 1] == Keys(rs);
    OrderedByLeads(o.policy, rs, c, next);
    assert (rs + [next])[..|rs|] == rs;
  }

  /** A followed redirect keeps every relation to the requests before it. */
  lemma LeadsOn(c: Cursor, d: Redirect.Decision, status: int, hops: nat, max: nat, s: Sent, next: Cursor)
    requires d.Follow? && d == Redirect.Decide(max, false, status, c.method_, c.uri, next.uri, hops)
    requires next.body == (if d.dropBody then [] else c.body) && next.strip == (c.strip || d.strip)
    requires Leads(c, s) || (s.uri == c.uri && s.body == c.body)
    ensures Leads(next, s)
  {
    Redirect.DecisionTable(max, status, c.method_, c.uri, next.uri, hops);
    SameOriginIsEquivalence(s.uri, c.uri, next.uri);
  }

  lemma {:induction false} LeadsAllOn(c: Cursor, d: Redirect.Decision, status: int, hops: nat, max: nat,
                                      rs: seq<Sent>, next: Cursor)
    requires d.Follow? && d == Redirect.Decide(max, false, status, c.method_, c.uri, next.uri, hops)
    requires next.body == (if d.dropBody then [] else c.body) && next.strip == (c.strip || d.strip)
    requires LeadsAll(c, rs)
    ensures LeadsAll(next, rs)
  {
    if rs != [] {
      LeadsAllOn(c, d, status, hops, max, rs[..|rs| - 1], next);
      LeadsOn(c, d, status, hops, max, rs[|rs| - 1], next);
    }
  }

  // ---- one hop: getting a connection ----

  /** When opening succeeds. */
  predicate Opens(o: Opts, https: bool, a: Opening)
  {
    && (o.pool ==> a.key)
    && ((o.pool && a.pooled)
        || (a.dialRc == Ok && (https && !a.backend ==> (a.via ==> a.tunnelRc == Ok) && a.tls && a.tlsRc == Ok)))
  }

  /** A connection dialled for https here, and not by a backend, has been through its handshake,
      behind the tunnel if there is a proxy. */
  predicate Secured(o: Opts, https: bool, a: Opening)
  {
    https && !a.backend && !(o.pool && a.pooled) ==>
      a.dialRc == Ok && a.tls && a.tlsRc == Ok && (a.via ==> a.tunnelRc == Ok)
  }

  /** The pool first, then a backend that dials, then TCP with a tunnel and TLS as needed. Whatever
      fails on the way, nothing half-open is left. */
  method OpenStream(o: Opts, https: bool, a: Opening, l0: Log) returns (l: Log, rc: Code, s: Handle)
    requires Owned(l0, None)
    ensures Owned(l, s) && l.requests == l0.requests && l.handed == l0.handed
    ensures Reused(l.disposed) == Reused(l0.disposed)
    ensures rc == Ok <==> Opens(o, https, a)
    ensures rc == Ok ==> Secured(o, https, a)
    ensures rc == Ok <==> s.Held?
  {
    l, s := l0, None;
    if o.pool {
      if !a.key {
        return l, NoMem, s;
      }
      if a.pooled {
        l, s := Obtain(l);
        return l, Ok, s;
      }
    }
    if a.dialRc != Ok {
      return l, a.dialRc, s;
    }
    l, s := Obtain(l);
    if !https || a.backend {
      return l, Ok, s;
    }
    if a.via && a.tunnelRc != Ok {
      l := Dispose(l, s, Dropped);
      return l, a.tunnelRc, None;
    }
    if !a.tls {
      l := Dispose(l, s, Dropped);
      return l, Tls, None;
    }
    if a.tlsRc != Ok {
      l := Dispose(l, s, Dropped);
      return l, a.tlsRc, None;
    }
    rc := Ok;
  }

  /** HTTP/2 is wanted where TLS agreed on it, or on a direct cleartext connection that requires it. */
  predicate WantsH2(o: Opts, https: bool, via: bool, c: Choice)
  {
    if https then c.negotiated else o.http2 == 2 && !via
  }

  /** Settle on a protocol; a connection that cannot speak the required one is closed. */
  method ChooseProtocol(o: Opts, https: bool, via: bool, c: Choice, l0: Log, s0: Handle)
    returns (l: Log, rc: Code, s: Handle, h2: bool)
    requires Owned(l0, s0) && s0.Held?
    ensures Owned(l, s) && l.requests == l0.requests && l.handed == l0.handed
    ensures Reused(l.disposed) == Reused(l0.disposed)
    ensures rc == Ok ==>
      s == s0 && (h2 <==> c.isH2 || (https && c.negotiated) || (!https && o.http2 == 2 && !via))
    ensures rc == Ok <==> c.isH2 || (if WantsH2(o, https, via, c) then c.wrapRc == Ok else o.http2 != 2)
    ensures rc != Ok ==> s.None?
  {
    l, s, h2 := l0, s0, c.isH2;
    if c.isH2 {
      return l, Ok, s, true;
    }
    var want := if https then c.negotiated else o.http2 == 2 && !via;
    if !want && o.http2 != 2 {
      return l, Ok, s, false;
    }
    rc := if !want then NoConnect else c.wrapRc;
    if rc != Ok {
      l := Dispose(l, s, Dropped);
      return l, rc, None, false;
    }
    h2 := true;
  }

  // ---- building and sending the request ----

  /** The first part of the request that cannot be built. */
  function Built(o: Opts, abs: bool, h2: bool, b: Build): Code
  {
    if !b.hostFits then BadUrl
    else if abs && (!b.absInit || !b.absForm) then NoMem
    else if abs && b.auth != Ok then b.auth
    else if o.noDecode && b.accept != Ok then b.accept
    else if b.headers != Ok then b.headers
    else if !h2 && !b.wire then NoMem
    else b.rest
  }

  /** Build the request, part by part; each failure closes the connection. */
  method Prepare(o: Opts, abs: bool, h2: bool, b: Build, l0: Log, s0: Handle)
    returns (l: Log, rc: Code, s: Handle)
    requires Owned(l0, s0) && s0.Held?
    ensures Owned(l, s) && l.requests == l0.requests && l.handed == l0.handed
    ensures Reused(l.disposed) == Reused(l0.disposed)
    ensures rc == Built(o, abs, h2, b) && s == if rc == Ok then s0 else None
    ensures rc == Ok <==>
      && b.hostFits && (abs ==> b.absInit && b.absForm && b.auth == Ok) && (o.noDecode ==> b.accept == Ok)
      && b.headers == Ok && (h2 || b.wire) && b.rest == Ok
  {
    l, s := l0, s0;
    if !b.hostFits {
      l := Dispose(l, s, Dropped);
      return l, BadUrl, None;
    }
    if abs {
      if !b.absInit {
        l := Dispose(l, s, Dropped);
        return l, NoMem, None;
      }
      if !b.absForm {
        l := Dispose(l, s, Dropped);
        return l, NoMem, None;
      }
      if b.auth != Ok {
        l := Dispose(l, s, Dropped);
        return l, b.auth, None;
      }
    }
    if o.noDecode && b.accept != Ok {
      l := Dispose(l, s, Dropped);
      return l, b.accept, None;
    }
    if b.headers != Ok {
      l := Dispose(l, s, Dropped);
      return l, b.headers, None;
    }
    if !h2 && !b.wire {
      l := Dispose(l, s, Dropped);
      return l, NoMem, None;
    }
    rc := b.rest;
    if rc != Ok {
      l := Dispose(l, s, Dropped);
      s := None;
    }
  }

  // ---- receiving ----

  const DEFAULT_MAX_BODY: nat := 16 * 1024 * 1024
  const MAX_REDIRECT_BODY: nat := 64 * 1024
  const MAX_RATIO: nat := 1000

  predicate MayFollow(o: Opts, hop: Hop)
  {
    Redirect.IsRedirect(hop.status) && o.maxRedirects > 0 && hop.location != NoLocation
  }

  /** A body the caller pulls: never that of a redirect, never one with a sink. */
  predicate Pulls(o: Opts, hop: Hop)
  {
    o.streamBody && !MayFollow(o, hop) && !o.sink
  }

  function Cap(o: Opts, hop: Hop): (cap: nat)
    ensures cap > 0
  {
    if MayFollow(o, hop) then MAX_REDIRECT_BODY else if o.maxBody > 0 then o.maxBody else DEFAULT_MAX_BODY
  }

  /** The coding to undo: none for a body to be thrown away, nor where there is no body. */
  function CodingOf(o: Opts, hop: Hop, bodiless: bool): Coding
  {
    if o.noDecode || MayFollow(o, hop) || bodiless then Identity else hop.coding
  }

  /** The coding counts: the caller wants the body decoded, and there is one that is not thrown away. */
  predicate Codes(o: Opts, hop: Hop, bodiless: bool)
  {
    !o.noDecode && !MayFollow(o, hop) && !bodiless
  }

  /** What these rules come to. A hop is followed when its status is one of five, redirects are allowed
      and it names a place. A body is pulled when the caller wants that, has no sink, and the hop is
      not followed. A followed hop's body may be 64 KiB, another's the caller's limit or 16 MiB. */
  lemma RulesMean(o: Opts, hop: Hop)
    ensures MayFollow(o, hop) <==>
      && (hop.status == 301 || hop.status == 302 || hop.status == 303 || hop.status == 307 || hop.status == 308)
      && o.maxRedirects > 0 && !hop.location.NoLocation?
    ensures Pulls(o, hop) <==> o.streamBody && !o.sink && !MayFollow(o, hop)
    ensures Cap(o, hop) ==
      if MayFollow(o, hop) then 65536 else if o.maxBody > 0 then o.maxBody else 16777216
  {
  }

  /** A pipe into memory for this hop's body. */
  method MakePipe(o: Opts, hop: Hop, bodiless: bool) returns (rc: Code, p: Pipe)
    ensures fresh(p) && fresh(p.sink) && fresh(p.sink.buffer) && (p.inflater != null ==> fresh(p.inflater))
    ensures p.Valid() && p.Lossless() && p.maxBody == Cap(o, hop) && p.rawSeen == p.surplus == 0
    ensures p.sink.total == [] && p.sink.buffer.data == []
    ensures p.inflater != null <==> CodingOf(o, hop, bodiless).Coded?
    ensures p.inflater != null <==> Codes(o, hop, bodiless) && hop.coding.Coded?
    ensures p.inflater != null ==> p.inflater.inTotal == 0 && p.inflater.enc == hop.coding.enc
    ensures Codes(o, hop, bodiless) && hop.coding.Unsupported? ==> rc == BodyDecode
    ensures rc == if CodingOf(o, hop, bodiless).Unsupported? then BodyDecode
                  else if CodingOf(o, hop, bodiless).Coded? then hop.pipeRc else Ok
  {
    var coding := CodingOf(o, hop, bodiless);
    var buffer := new Buffer();
    var sink := new Sink(buffer);
    var z: Inflater? := null;
    if coding.Coded? {
      z := new Inflater(coding.enc, Limits(Cap(o, hop), MAX_RATIO));
    }
    p := new Pipe(sink, z, Cap(o, hop));
    rc := if coding.Unsupported? then BodyDecode else if coding.Coded? then hop.pipeRc else Ok;
  }

  /** What came of a response: whether a head arrived, whether its body was handed over, how the
      body went, and the bytes past its end. */
  datatype Reply = Reply(answered: bool, pulled: bool, rc: Code, surplus: nat, body: seq<Byte>)

  /** The wire behind a head of h bytes. */
  function Behind(x: Http1, h: nat): seq<Byte>
    requires h <= |Bytes(x.script)|
  {
    Bytes(x.script)[h..]
  }

  /** No final head was to be had of an HTTP/1.1 connection: the parser refused what had been read, or
      wanted more of it than there was, than is allowed or than memory held. */
  ghost predicate NoHead(x: Http1, rc: Code)
  {
    exists heads: seq<Byte>, raw: seq<Byte> ::
      && heads + raw <= Bytes(x.script)
      && Response.Headless(x.parse, x.memory, raw, heads + raw == Bytes(x.script), Ending(x.script), rc)
  }

  /** A body that can be followed on the wire: identity coding, and no chunks. */
  predicate Plain1(o: Opts, hop: Hop)
  {
    !hop.h1.kind.ChunkedBody? && CodingOf(o, hop, hop.h1.kind.NoBody?).Identity?
  }

  predicate Decodes(o: Opts, hop: Hop, bodiless: bool)
  {
    var c := CodingOf(o, hop, bodiless);
    c.Identity? || (c.Coded? && hop.pipeRc == Ok)
  }

  /** What a body was read with, to say why that failed. */
  datatype Read1 = NotRead | ReadWith(s: Stream, r: BodyReader, p: Pipe)

  method FindHead(x: Http1, s: Stream) returns (rc: Code, seed: seq<Byte>, ghost head: seq<Byte>)
    requires Proper(s.script) && Response.Sane(x.parse) && s.got == [] && s.script == x.script
    modifies s
    ensures Proper(s.script) && Ending(s.script) == Ending(x.script)
    ensures s.got + Bytes(s.script) == Bytes(x.script)
    ensures rc == Ok ==> head + seed == s.got
    ensures rc != Ok ==> NoHead(x, rc)
  {
    rc, seed, head := Response.ReadFinalHead(s, x.parse, x.memory);
    assert rc != Ok ==> head + seed <= s.got <= Bytes(x.script);
  }

  /** A good read's body: all that was framed or, when the coding counts, all that zlib made of it. */
  ghost predicate Whole1(o: Opts, hop: Hop, r: BodyReader, p: Pipe, body: seq<Byte>)
    reads r, r.dec, p, p.sink, p.inflater
  {
    && Complete(r, p) && r.kind == hop.h1.kind
    && body == (if p.inflater == null then r.fed else p.inflater.made)
    && (p.inflater != null <==> Codes(o, hop, hop.h1.kind.NoBody?) && hop.coding.Coded?)
    && (p.inflater != null ==> p.inflater.finished || p.inflater.inTotal == 0)
  }

  /** An HTTP/1.1 response: its heads, its framing, and its body into this hop's sink. What was
      received is the heads, the message and the surplus. With identity coding and no chunks the
      body is the framed one, and with nothing outside in the way and a cap that leaves it alone
      reading fails exactly when there is none; else it fails for one of the reader's reasons. */
  method Exchange1(o: Opts, hop: Hop)
    returns (r: Reply, ghost received: nat, ghost heads: nat, ghost message: nat, ghost how: Read1)
    requires FairHop(hop)
    ensures r.pulled <==> r.answered && Pulls(o, hop) && hop.openRc == Ok
    ensures r.answered && Pulls(o, hop) ==> r.rc == hop.openRc
    ensures r.rc == Ok ==> r.answered && hop.h1.framing == Ok
    ensures !r.answered ==> NoHead(hop.h1, r.rc) || r.rc == hop.h1.framing != Ok
    ensures |r.body| <= Cap(o, hop)
    ensures r.rc == Ok && !r.pulled ==> received == heads + message + r.surplus
    ensures r.rc == Ok && !r.pulled ==> how.ReadWith? && Whole1(o, hop, how.r, how.p, r.body)
    ensures r.answered ==> heads <= |Bytes(hop.h1.script)|
    ensures r.answered && !Pulls(o, hop) && Plain1(o, hop) ==> PlainOutcome(o, hop, heads, r)
    ensures r.answered && !Pulls(o, hop) && Decodes(o, hop, hop.h1.kind.NoBody?) && AllCalm(hop.env) && r.rc != Ok ==>
              how.ReadWith? && how.r.Excused(how.s, how.p, r.rc)
  {
    var x := hop.h1;
    received, heads, message, how := 0, 0, 0, NotRead;
    var s := new Stream(x.script);
    var rc, seed;
    ghost var head;
    rc, seed, head := FindHead(x, s);
    if rc != Ok {
      return Reply(false, false, rc, 0, []), received, heads, message, how;
    }
    if x.framing != Ok {
      return Reply(false, false, x.framing, 0, []), received, heads, message, how;
    }
    received, heads := |s.got|, |head|;
    assert head + (seed + Bytes(s.script)) == Bytes(x.script);
    if Pulls(o, hop) {
      return Reply(true, hop.openRc == Ok, hop.openRc, 0, []), received, heads, message, how;
    }
    assert Behind(x, heads) == seed + Bytes(s.script);
    s.Mark();
    ghost var took;
    r, took, message, how := ReadHere(o, hop, s, seed);
    received := received + took;
  }

  /** The framed body, or the code of a wire without one. */
  ghost predicate Outcome1(o: Opts, hop: Hop, wire: seq<Byte>, ending: Read, r: Reply)
    requires !hop.h1.kind.ChunkedBody? && !ending.Data?
  {
    && (r.rc == Ok ==> Framed(hop.h1.kind, wire, ending) == Whole(r.body))
    && (r.rc != Ok && AllCalm(hop.env) && Fits(hop.h1.kind, wire, Cap(o, hop)) ==>
          Framed(hop.h1.kind, wire, ending) == Broken(r.rc))
  }

  ghost predicate PlainOutcome(o: Opts, hop: Hop, heads: nat, r: Reply)
    requires heads <= |Bytes(hop.h1.script)| && !hop.h1.kind.ChunkedBody?
  {
    Outcome1(o, hop, Behind(hop.h1, heads), Ending(hop.h1.script), r)
  }

  /** The body behind the head, through this hop's pipe. */
  method ReadHere(o: Opts, hop: Hop, s: Stream, seed: seq<Byte>)
    returns (r: Reply, ghost took: nat, ghost message: nat, ghost how: Read1)
    requires Proper(s.script) && s.got == []
    modifies s
    ensures r.answered && !r.pulled
    ensures |r.body| <= Cap(o, hop)
    ensures r.rc == Ok ==> message + r.surplus == |seed| + took
    ensures r.rc == Ok ==> how.ReadWith? && Whole1(o, hop, how.r, how.p, r.body)
    ensures Plain1(o, hop) ==> Outcome1(o, hop, seed + old(Bytes(s.script)), old(Ending(s.script)), r)
    ensures Decodes(o, hop, hop.h1.kind.NoBody?) && AllCalm(hop.env) && r.rc != Ok ==>
              how.ReadWith? && how.r.Excused(how.s, how.p, r.rc)
  {
    var kind := hop.h1.kind;
    took, message, how := 0, 0, NotRead;
    var rc, p := MakePipe(o, hop, kind.NoBody?);
    if rc != Ok {
      return Reply(true, false, rc, 0, []), took, message, how;
    }
    var dec: Chunked? := null;
    if kind.ChunkedBody? {
      dec := new Chunked(p.maxBody);
    }
    var reader := new BodyReader(kind, seed, dec);
    rc := ReadBody(s, reader, p, hop.env);
    took, message, how := |s.got|, MessageBytes(reader), ReadWith(s, reader, p);
    return Reply(true, false, rc, p.surplus, p.sink.buffer.data), took, message, how;
  }

  /** An HTTP/2 body that nothing stands in the way of: identity coding, within the cap. */
  ghost predicate Calm2(o: Opts, hop: Hop)
  {
    && CodingOf(o, hop, hop.h2.bodiless).Identity? && AllCalm(hop.env)
    && |H2Body.Carried(hop.h2.script)| <= Cap(o, hop)
  }

  ghost predicate Whole2(o: Opts, hop: Hop, p: Pipe, body: seq<Byte>)
    reads p, p.inflater
  {
    && body == (if p.inflater == null then H2Body.Carried(hop.h2.script) else p.inflater.made)
    && (p.inflater != null <==> Codes(o, hop, hop.h2.bodiless) && hop.coding.Coded?)
    && (p.inflater != null ==> p.inflater.finished || p.inflater.inTotal == 0)
  }

  /** An HTTP/2 response, likewise. Its session lives on with the connection. */
  method Exchange2(o: Opts, hop: Hop) returns (r: Reply, q: H2Body.Session, ghost how: Pipe?)
    ensures fresh(q) && q.goaway == hop.h2.goaway && q.allowed == hop.h2.allowed
    ensures r.rc == Ok && !r.pulled ==> (q.Reusable() <==> !hop.h2.goaway && hop.h2.allowed)
    ensures r.surplus == 0
    ensures r.pulled <==> r.answered && Pulls(o, hop) && hop.openRc == Ok
    ensures r.answered <==> hop.h2.beginRc == Ok
    ensures r.answered && Pulls(o, hop) ==> r.rc == hop.openRc
    ensures r.rc == Ok ==> r.answered
    ensures |r.body| <= Cap(o, hop) && (r.rc == Ok && !r.pulled ==> H2Body.Outcome(hop.h2.script) == Ok)
    ensures r.rc == Ok && !r.pulled && CodingOf(o, hop, hop.h2.bodiless).Identity? ==>
              r.body == H2Body.Carried(hop.h2.script)
    ensures r.rc == Ok && !r.pulled ==> how != null && Whole2(o, hop, how, r.body)
    ensures !r.answered ==> r.rc == hop.h2.beginRc
    ensures r.answered && !Pulls(o, hop) && Calm2(o, hop) ==> r.rc == H2Body.Outcome(hop.h2.script)
  {
    var x := hop.h2;
    how := null;
    q := new H2Body.Session(x.script, x.goaway, x.allowed);
    if x.beginRc != Ok {
      return Reply(false, false, x.beginRc, 0, []), q, how;
    }
    if Pulls(o, hop) {
      return Reply(true, hop.openRc == Ok, hop.openRc, 0, []), q, how;
    }
    var rc, p := MakePipe(o, hop, x.bodiless);
    if rc == Ok {
      rc := H2Body.ReadFrames(q, p, hop.env);
    }
    return Reply(true, false, rc, 0, p.sink.buffer.data), q, p;
  }

  // ---- what becomes of the connection ----

  /** An HTTP/1.1 exchange after which the server's next byte will answer the next request. */
  predicate Clean(x: Http1, surplus: nat)
  {
    && surplus == 0 && x.poolable && !x.kind.UntilClose?
    && !x.close && (x.minor == 0 ==> x.keepAlive)
  }

  function H2Reuse(rc: Code, reusable: bool): Reason
  {
    if rc == Timeout || rc == Cancelled || rc == Interrupted then WasCancelled
    else if rc != Ok || !reusable then BodyIncomplete
    else ReuseOk
  }

  /** Nobody wants the rest: a stop from the sink counts as a clean end. */
  predicate Stopped(hop: Hop, r: Reply)
  {
    r.answered && r.rc == Cancelled && hop.stopped
  }

  /** A body nobody will see, too long or broken off, does not fail a redirect. */
  predicate Undrained(o: Opts, hop: Hop, r: Reply)
  {
    r.answered && MayFollow(o, hop) && (r.rc == BodyLimit || r.rc == Parse)
  }

  /** The verdict on an HTTP/1.1 connection. */
  method Judge1(o: Opts, hop: Hop, r: Reply) returns (rc: Code, reason: Reason)
    requires r.rc == Ok ==> r.answered
    ensures rc == if Undrained(o, hop, r) || Stopped(hop, r) then Ok else r.rc
    ensures reason == ReuseOk <==> r.rc == Ok && Clean(hop.h1, r.surplus)
  {
    var x := hop.h1;
    rc := r.rc;
    reason := if r.answered then Reuse.Decide(rc, x.kind, x.poolable, x.close, x.keepAlive, x.minor)
              else Reuse.Decide(rc, UntilClose, false, x.close, x.keepAlive, x.minor);
    if r.answered && MayFollow(o, hop) && (rc == BodyLimit || rc == Parse) {
      rc := Ok;
    }
    if rc == Cancelled && r.answered && hop.stopped {
      rc, reason := Ok, WasCancelled;
    }
    reason := WithSurplus(reason, rc, r.surplus);
  }

  /** The verdict on an HTTP/2 connection: the session must be able to carry another request, after
      the body or, when the sink stopped, after the reset of what is left of it. */
  method Judge2(o: Opts, hop: Hop, r: Reply, q: H2Body.Session) returns (rc: Code, reason: Reason)
    requires r.surplus == 0
    modifies q
    ensures rc == if Undrained(o, hop, r) || Stopped(hop, r) then Ok else r.rc
    ensures reason == ReuseOk <==>
      if Stopped(hop, r) then
        if old(q.close != H2Body.Open || q.failed) then old(q.Reusable())
        else hop.h2.flushes && !q.goaway && q.allowed
      else r.rc == Ok && old(q.Reusable())
  {
    rc := r.rc;
    reason := H2Reuse(rc, q.Reusable());
    if r.answered && MayFollow(o, hop) && (rc == BodyLimit || rc == Parse) {
      rc := Ok;
    }
    if rc == Cancelled && r.answered && hop.stopped {
      q.Cancel(hop.h2.flushes);
      rc, reason := Ok, H2Reuse(Ok, q.Reusable());
    }
    reason := WithSurplus(reason, rc, r.surplus);
  }

  /** What a hop has to say for itself: the protocol, the reply, the verdict on the connection, and
      for HTTP/1.1 the bytes received, of which so many were heads and so many message. */
  datatype Report = NoReply | Report(h2: bool, reply: Reply, reason: Reason, received: nat, heads: nat, message: nat)

  /** A report is truthful. An HTTP/1.1 connection is judged reusable exactly when the body was
      read whole and the exchange left it in step, and then the bytes received are exactly the
      heads and the message; an HTTP/2 one exactly when the body was read whole, or reset by a
      sink that stopped, and its session can carry another request. */
  ghost predicate Truthful(o: Opts, hop: Hop, d: Report)
    requires d.Report?
  {
    var r := d.reply;
    && (r.pulled <==> r.answered && Pulls(o, hop) && hop.openRc == Ok)
    && (!d.h2 ==> (d.reason == ReuseOk <==> r.rc == Ok && Clean(hop.h1, r.surplus)))
    && (!d.h2 && d.reason == ReuseOk && !r.pulled ==> d.received == d.heads + d.message)
    && (d.h2 && !r.pulled && !Stopped(hop, r) ==>
          (d.reason == ReuseOk <==> r.rc == Ok && !hop.h2.goaway && hop.h2.allowed))
    && (d.h2 && Stopped(hop, r) && d.reason == ReuseOk ==> !hop.h2.goaway && hop.h2.allowed)
    && BodyIsRight(o, hop, d)
  }

  /** The body a hop leaves in its sink: within the cap, and with identity coding what was framed;
      and how reading it ends, with nothing outside in the way. */
  ghost predicate BodyIsRight(o: Opts, hop: Hop, d: Report)
    requires d.Report?
  {
    var r := d.reply;
    && |r.body| <= Cap(o, hop)
    && (r.answered && Pulls(o, hop) ==> r.rc == hop.openRc)
    && (d.h2 && r.rc == Ok && !r.pulled ==> H2Body.Outcome(hop.h2.script) == Ok)
    && (if d.h2 then
          && (!r.answered ==> r.rc == hop.h2.beginRc)
          && (r.rc == Ok && !r.pulled && CodingOf(o, hop, hop.h2.bodiless).Identity? ==>
                r.body == H2Body.Carried(hop.h2.script))
          && (r.answered && !Pulls(o, hop) && Calm2(o, hop) ==> r.rc == H2Body.Outcome(hop.h2.script))
        else
          && (!r.answered ==> NoHead(hop.h1, r.rc) || r.rc == hop.h1.framing != Ok)
          && (r.answered && !Pulls(o, hop) && Plain1(o, hop) ==>
                d.heads <= |Bytes(hop.h1.script)| && PlainOutcome(o, hop, d.heads, r)))
  }

  /** Connections given back for reuse. */
  function Reused(ds: seq<Disposal>): nat
  {
    if ds == [] then 0 else Reused(ds[..|ds| - 1]) + (if ds[|ds| - 1].how == Finished(ReuseOk) then 1 else 0)
  }

  function Clears(d: Report): nat
  {
    if d.Report? && !d.reply.pulled && d.reason == ReuseOk then 1 else 0
  }

  function Cleared(ds: seq<Report>): nat
  {
    if ds == [] then 0 else Cleared(ds[..|ds| - 1]) + Clears(ds[|ds| - 1])
  }

  /** The receiving end of a hop, on a connection the request has gone out on. */
  method Receive(o: Opts, hop: Hop, h2: bool) returns (rc: Code, reason: Reason, r: Reply, ghost said: Report)
    requires FairHop(hop)
    ensures said.Report? && said.h2 == h2 && said.reply == r && said.reason == reason
    ensures Truthful(o, hop, said)
    ensures rc == if Undrained(o, hop, r) || Stopped(hop, r) then Ok else r.rc
    ensures r.rc != Ok ==>
      (rc == Ok <==> r.answered && (if r.rc == Cancelled then hop.stopped
                                    else MayFollow(o, hop) && (r.rc == BodyLimit || r.rc == Parse)))
    ensures r.pulled ==> r.rc == Ok
    ensures rc == Ok ==> r.answered
  {
    ghost var received, heads, message := 0, 0, 0;
    if h2 {
      var q;
      ghost var how;
      r, q, how := Exchange2(o, hop);
      rc, reason := Judge2(o, hop, r, q);
    } else {
      ghost var how;
      r, received, heads, message, how := Exchange1(o, hop);
      rc, reason := Judge1(o, hop, r);
    }
    said := Report(h2, r, reason, received, heads, message);
  }

  // ---- one hop ----

  predicate SpeaksH2(o: Opts, https: bool, hop: Hop)
  {
    hop.choice.isH2 || WantsH2(o, https, hop.opening.via, hop.choice)
  }

  /** Everything up to the response goes well: proxy, connection, protocol, request, room for the
      head. */
  predicate Reaches(o: Opts, https: bool, hop: Hop)
  {
    var c, h2 := hop.choice, SpeaksH2(o, https, hop);
    && hop.proxyRc == Ok && Opens(o, https, hop.opening)
    && (c.isH2 || (if h2 then c.wrapRc == Ok else o.http2 != 2))
    && Built(o, hop.opening.via && !https, h2, hop.build) == Ok
    && (h2 || hop.sendRc == Ok) && hop.room
  }

  /** That in full: what it takes to have sent a request and be waiting for its response. */
  lemma ReachesMeans(o: Opts, https: bool, hop: Hop)
    ensures Reaches(o, https, hop) <==>
      var a, c, b := hop.opening, hop.choice, hop.build;
      var proxied := a.via && !https;
      var wants := if https then c.negotiated else o.http2 == 2 && !a.via;
      && hop.proxyRc == Ok && (o.pool ==> a.key)
      && (!(o.pool && a.pooled) ==> a.dialRc == Ok)
      && (https && !(o.pool && a.pooled) && !a.backend ==>
            (a.via ==> a.tunnelRc == Ok) && a.tls && a.tlsRc == Ok)
      && (!c.isH2 ==> (wants ==> c.wrapRc == Ok) && (o.http2 == 2 ==> wants))
      && b.hostFits && (proxied ==> b.absInit && b.absForm && b.auth == Ok)
      && (o.noDecode ==> b.accept == Ok) && b.headers == Ok
      && (!c.isH2 && !wants ==> b.wire && hop.sendRc == Ok) && b.rest == Ok && hop.room
  {
  }

  /** Get a connection and a protocol, build the request, send it, receive, and settle what becomes
      of the connection: whatever happens on the way it is disposed of once here, or handed to a
      pulled body. `moved` says that the source went with it. */
  method RunHop(o: Opts, hop: Hop, sent: Sent, live: bool, log0: Log)
    returns (log: Log, rc: Code, moved: bool, body: seq<Byte>, ghost said: Report)
    requires FairHop(hop)
    requires Owned(log0, None) && log0.handed.None?
    ensures Owned(log, None)
    ensures log.requests == log0.requests
            || (log.requests == log0.requests + [sent] && Secured(o, sent.uri.https, hop.opening))
    ensures rc == Ok ==> said.Report? && said.reply.answered && log.requests == log0.requests + [sent]
    ensures said.Report? ==> Truthful(o, hop, said) && body == said.reply.body
    ensures said.Report? && !said.reply.pulled ==>
      log.disposed != [] && log.disposed[|log.disposed| - 1].how == Finished(said.reason)
    ensures Reused(log.disposed) == Reused(log0.disposed) + Clears(said)
    ensures said.Report? <==> Reaches(o, sent.uri.https, hop)
    ensures said.Report? ==> said.h2 == SpeaksH2(o, sent.uri.https, hop)
    ensures said.Report? ==>
      rc == if Undrained(o, hop, said.reply) || Stopped(hop, said.reply) then Ok else said.reply.rc
    ensures log.handed.Held? <==> said.Report? && said.reply.pulled
    ensures log.handed.Held? ==> rc == Ok && Pulls(o, hop)
    ensures moved <==> log.handed.Held? && live && said.h2
  {
    var s, h2;
    moved, body, said := false, [], NoReply;
    log, rc, s, h2 := Reach(o, hop, sent, log0);
    if rc == Ok {
      var reason, r;
      rc, reason, r, said := Receive(o, hop, h2);
      body := r.body;
      if r.pulled {
        log := HandOver(log, s);
        moved := h2 && live;
      } else {
        log := Dispose(log, s, Finished(reason));
      }
    }
  }

  /** A hop up to the response: a connection in hand, the request on it, or neither and the reason. */
  method Reach(o: Opts, hop: Hop, sent: Sent, log0: Log) returns (log: Log, rc: Code, s: Handle, h2: bool)
    requires Owned(log0, None)
    ensures Owned(log, s) && log.handed == log0.handed && Reused(log.disposed) == Reused(log0.disposed)
    ensures log.requests == log0.requests
            || (log.requests == log0.requests + [sent] && Secured(o, sent.uri.https, hop.opening))
    ensures rc == Ok <==> Reaches(o, sent.uri.https, hop)
    ensures rc == Ok ==> h2 == SpeaksH2(o, sent.uri.https, hop) && log.requests == log0.requests + [sent]
    ensures if rc == Ok then s.Held? else s.None?
  {
    var https := sent.uri.https;
    log, rc, s, h2 := log0, hop.proxyRc, None, false;
    if rc == Ok {
      log, rc, s := OpenStream(o, https, hop.opening, log);
    }
    if rc == Ok {
      log, rc, s, h2 := ChooseProtocol(o, https, hop.opening.via, hop.choice, log, s);
    }
    if rc == Ok {
      log, rc, s := Prepare(o, hop.opening.via && !https, h2, hop.build, log, s);
    }
    if rc == Ok {
      log, rc, s := Transmit(hop, h2, sent, log, s);
    }
  }

  /** Write an HTTP/1.1 request, and make room for the head of the response. An HTTP/2 request goes
      out with the wait for its response. */
  method Transmit(hop: Hop, h2: bool, sent: Sent, l0: Log, s0: Handle) returns (l: Log, rc: Code, s: Handle)
    requires Owned(l0, s0) && s0.Held?
    ensures Owned(l, s) && l.handed == l0.handed && Reused(l.disposed) == Reused(l0.disposed)
    ensures l.requests == l0.requests || l.requests == l0.requests + [sent]
    ensures rc == Ok ==> s == s0 && l == Send(l0, sent)
    ensures rc == Ok <==> (h2 || hop.sendRc == Ok) && hop.room
    ensures rc != Ok ==> s.None?
  {
    l, s := l0, s0;
    if !h2 {
      l := Send(l, sent);
      if hop.sendRc != Ok {
        l := Dispose(l, s, Dropped);
        return l, hop.sendRc, None;
      }
    }
    if !hop.room {
      l := Dispose(l, s, Dropped);
      return l, NoMem, None;
    }
    if h2 {
      l := Send(l, sent);
    }
    rc := Ok;
  }

  // ---- the loop ----

  method Known(trail: seq<string>, key: string) returns (seen: bool)
    ensures seen <==> key in trail
  {
    var i := 0;
    while i < |trail|
      invariant 0 <= i <= |trail| && key !in trail[..i]
    {
      if trail[i] == key {
        return true;
      }
      i := i + 1;
    }
    return false;
  }

  /** The cursor after following. Credentials once stripped stay stripped. */
  function Moved(c: Cursor, d: Redirect.Decision, to: Uri): Cursor
    requires d.Follow?
  {
    var method_ := if d.toGet then "GET" else c.method_;
    Cursor(to, method_, if d.dropBody then [] else c.body, c.strip || d.strip, false, c.trail + [TrailKey(method_, to)])
  }

  /** A place worth going: a host that fits, and a request not made before. */
  predicate Fresh(c: Cursor, next: Cursor)
  {
    |next.uri.host| <= MAX_HOST && TrailKey(next.method_, next.uri) !in c.trail
  }

  lemma ReadyAgain(spec: Spec, rs: seq<Sent>, c: Cursor, d: Redirect.Decision, status: int, max: nat, next: Cursor)
    requires rs != [] && Ready(spec, rs[..|rs| - 1], c)
    requires var last := rs[|rs| - 1]; last.uri == c.uri && last.method_ == c.method_ && last.body == c.body
    requires d.Follow? && d == Redirect.Decide(max, false, status, c.method_, c.uri, next.uri, |rs| - 1)
    requires next == Moved(c, d, next.uri) && TrailKey(next.method_, next.uri) !in c.trail
    ensures Ready(spec, rs, next)
  {
    var n := |rs| - 1;
    assert Keys(rs) == c.trail;
    assert next.trail[..|next.trail| - 1] == c.trail;
    LeadsAllOn(c, d, status, n, max, rs[..n], next);
    LeadsOn(c, d, status, n, max, rs[n], next);
  }

  lemma MovedAsCalledFor(o: Opts, hop: Hop, rs: seq<Sent>, c: Cursor, d: Redirect.Decision, next: Cursor)
    requires hop.location.To? && o.maxRedirects > 0 && rs != []
    requires d == Redirect.Decide(o.maxRedirects, false, hop.status, c.method_, c.uri, hop.location.uri, |rs| - 1)
    requires d.Follow? && next == Moved(c, d, hop.location.uri)
    ensures Redirected(hop, c.method_, c.body, next.method_, next.uri, next.body)
    ensures next.strip == (c.strip || !SameOrigin(c.uri, next.uri)) && !next.live
  {
  }

  /** Decide about an answered hop: stop here, fail, or move the cursor on. */
  method Follow(o: Opts, spec: Spec, hop: Hop, rs: seq<Sent>, c: Cursor) returns (rc: Code, stop: bool, next: Cursor)
    requires rs != []
    requires Ready(spec, rs[..|rs| - 1], c)
    requires var last := rs[|rs| - 1]; last.uri == c.uri && last.method_ == c.method_ && last.body == c.body
    ensures stop <==> !MayFollow(o, hop)
    ensures rc == Ok && !stop ==> Ready(spec, rs, next) && |rs| <= o.maxRedirects
    ensures stop ==> rc == Ok
    ensures MayFollow(o, hop) && hop.location.To? ==>
      var d := Redirect.Decide(o.maxRedirects, false, hop.status, c.method_, c.uri, hop.location.uri, |rs| - 1);
      && (rc == TooManyRedirects <==> |rs| > o.maxRedirects)
      && (rc == NotReplayable <==> d.Follow? && c.live && !d.dropBody)
      && (rc == Ok <==> d.Follow? && Fresh(c, Moved(c, d, hop.location.uri)) && !(c.live && !d.dropBody))
      && (rc == Ok ==> next == Moved(c, d, hop.location.uri))
    ensures MayFollow(o, hop) && hop.location.BadLocation? ==> rc == BadUrl
    ensures MayFollow(o, hop) && hop.location.To? && rc != Ok ==>
      var to := hop.location.uri;
      && (rc == BadUrl ==> |to.host| > MAX_HOST)
      && (rc == BadRedirect ==> (c.uri.https && !to.https) || exists m :: TrailKey(m, to) in c.trail)
      && (rc == TooManyRedirects || rc == BadRedirect || rc == NotReplayable || rc == BadUrl)
    ensures rc == Ok && !stop ==> Redirected(hop, c.method_, c.body, next.method_, next.uri, next.body)
    ensures rc == Ok && !stop ==> next.strip == (c.strip || !SameOrigin(c.uri, next.uri)) && !next.live
  {
    next := c;
    if !MayFollow(o, hop) {
      return Ok, true, c;
    }
    if hop.location.BadLocation? {
      return BadUrl, false, c;
    }
    var hops := |rs| - 1;
    var d := Redirect.Decide(o.maxRedirects, false, hop.status, c.method_, c.uri, hop.location.uri, hops);
    if d.TooMany? {
      return TooManyRedirects, false, c;
    }
    if d.Downgrade? {
      return BadRedirect, false, c;
    }
    if c.live && !d.dropBody {
      return NotReplayable, false, c;
    }
    next := Moved(c, d, hop.location.uri);
    if |next.uri.host| > MAX_HOST {
      return BadUrl, false, c;
    }
    var seen := Known(c.trail, TrailKey(next.method_, next.uri));
    if seen {
      return BadRedirect, false, c;
    }
    ReadyAgain(spec, rs, c, d, hop.status, o.maxRedirects, next);
    MovedAsCalledFor(o, hop, rs, c, d, next);
    return Ok, false, next;
  }

  // ---- where the redirects lead ----

  /** The request that a redirect calls for: to the place it names, after a 303 without a body and by
      GET unless the method was HEAD, after a 301 or 302 so only for a POST, and else unchanged. */
  ghost predicate Redirected(hop: Hop, method_: string, body: seq<Byte>, method2: string, uri2: Uri, body2: seq<Byte>)
  {
    && hop.location == To(uri2)
    && (hop.status == 303 ==> (method2, body2) == (if CaseEq(method_, "HEAD") then method_ else "GET", []))
    && (hop.status == 301 || hop.status == 302 ==>
          (method2, body2) == if CaseEq(method_, "POST") then ("GET", []) else (method_, body))
    && (hop.status == 307 || hop.status == 308 ==> (method2, body2) == (method_, body))
    && (hop.status == 301 || hop.status == 302 || hop.status == 303 || hop.status == 307 || hop.status == 308)
  }

  /** The next request is the one the last answer calls for. */
  ghost predicate Heading(env: nat -> Hop, rs: seq<Sent>, c: Cursor)
  {
    rs != [] ==> var n := |rs| - 1; Redirected(env(n), rs[n].method_, rs[n].body, c.method_, c.uri, c.body)
  }

  /** A hop sends at most one request, the one the cursor says, and over https only on a connection
      whose handshake is done. */
  ghost predicate Extended(o: Opts, hop: Hop, was: seq<Sent>, c: Cursor, now: seq<Sent>)
  {
    now == was
    || (&& |now| == |was| + 1 && now[..|was|] == was && Secured(o, c.uri.https, hop.opening)
        && var s := now[|was|];
           (s.method_, s.uri, s.body) == (c.method_, c.uri, c.body))
  }

  /** Every request but the first is the one that the answer before it called for. */
  ghost predicate Course(o: Opts, env: nat -> Hop, rs: seq<Sent>)
  {
    rs == [] ||
    var n := |rs| - 1;
    && Course(o, env, rs[..n]) && Secured(o, rs[n].uri.https, env(n).opening)
    && (n > 0 ==>
          Redirected(env(n - 1), rs[n - 1].method_, rs[n - 1].body, rs[n].method_, rs[n].uri, rs[n].body))
  }

  lemma CourseGrows(o: Opts, env: nat -> Hop, was: seq<Sent>, c: Cursor, now: seq<Sent>)
    requires Course(o, env, was) && Heading(env, was, c) && Extended(o, env(|was|), was, c, now)
    ensures Course(o, env, now)
  {
  }

  function Limit(o: Opts): nat
  {
    if o.maxRedirects > 0 then o.maxRedirects else 0
  }

  /** The first request is the caller's. */
  predicate AsAsked(url: Uri, spec: Spec, s: Sent)
  {
    (s.uri, s.method_, s.body, s.streamed) == (url, spec.method_, spec.body, spec.source)
  }

  /** What every run promises of its log, whatever its outcome. */
  ghost predicate Sound(url: Uri, spec: Spec, o: Opts, log: Log)
  {
    && Owned(log, None)
    && |log.requests| <= 1 + Limit(o)
    && Chain(o, spec, log.requests)
    && (log.requests != [] ==> AsAsked(url, spec, log.requests[0]))
  }

  /** Between hops: no connection is in hand, and the cursor leads on from the requests so far. */
  ghost predicate Going(url: Uri, spec: Spec, o: Opts, log: Log, c: Cursor)
  {
    && Sound(url, spec, o, log) && log.handed.None? && Ready(spec, log.requests, c)
    && |log.requests| <= Limit(o)
    && (log.requests == [] ==>
          (c.uri, c.method_, c.body, c.live) == (url, spec.method_, spec.body, spec.source))
  }

  /** A run's reports: one for each hop that got an answer, each true of its hop, and as many
      connections given back for reuse as exchanges were clean. */
  ghost predicate Reported(o: Opts, env: nat -> Hop, log: Log, ds: seq<Report>)
  {
    AllTrue(o, env, ds) && Reused(log.disposed) == Cleared(ds)
  }

  ghost predicate AllTrue(o: Opts, env: nat -> Hop, ds: seq<Report>)
  {
    ds != [] ==>
      var n := |ds| - 1;
      AllTrue(o, env, ds[..n]) && ds[n].Report? && Truthful(o, env(n), ds[n])
  }

  lemma ReportedGrows(o: Opts, env: nat -> Hop, was: Log, log: Log, ds: seq<Report>, said: Report)
    requires Reported(o, env, was, ds) && Reused(log.disposed) == Reused(was.disposed) + Clears(said)
    requires said.Report? ==> Truthful(o, env(|ds|), said)
    ensures Reported(o, env, log, if said.Report? then ds + [said] else ds)
  {
    assert (ds + [said])[..|ds|] == ds;
  }

  /** One turn of the loop. */
  method Turn(url: Uri, spec: Spec, o: Opts, hop: Hop, log0: Log, c0: Cursor)
    returns (rc: Code, log: Log, moved: bool, stop: bool, c: Cursor, body: seq<Byte>, ghost said: Report)
    requires FairHop(hop)
    requires Going(url, spec, o, log0, c0)
    ensures Sound(url, spec, o, log)
    ensures rc == Ok && !stop ==> Going(url, spec, o, log, c) && |log.requests| == |log0.requests| + 1 && !moved
    ensures rc == Ok && stop ==> !MayFollow(o, hop)
    ensures rc == Ok ==> said.Report?
    ensures said.Report? ==> Truthful(o, hop, said) && body == said.reply.body
    ensures Reused(log.disposed) == Reused(log0.disposed) + Clears(said)
    ensures log.handed.Held? ==> rc == Ok && stop && said.reply.pulled && o.streamBody && !o.sink
    ensures rc == Ok && stop ==> said.reply.rc == Ok || (said.reply.rc == Cancelled && hop.stopped)
    ensures Extended(o, hop, log0.requests, c0, log.requests)
    ensures rc == Ok && !stop ==> Redirected(hop, c0.method_, c0.body, c.method_, c.uri, c.body)
    ensures rc == Ok && said.reply.pulled ==> log.handed.Held?
    ensures moved ==> log.handed.Held? && spec.source
  {
    stop, c := true, c0;
    var carried := CarryHeaders(o, c0.strip, spec.headers);
    var sent := Sent(c0.method_, c0.uri, carried, c0.body, c0.live);
    ChainGrows(o, spec, log0.requests, c0, carried);
    log, rc, moved, body, said := RunHop(o, hop, sent, c0.live, log0);
    if rc == Ok {
      assert log.requests[..|log.requests| - 1] == log0.requests;
      rc, stop, c := Follow(o, spec, hop, log.requests, c0);
    }
  }

  /** The hop that a good run ends with: no redirect to follow, its body the caller's, and that read
      to its end unless the sink wanted no more. */
  ghost predicate Final(o: Opts, hop: Hop, d: Report, body: seq<Byte>)
  {
    && d.Report? && !MayFollow(o, hop) && body == d.reply.body
    && (d.reply.rc == Ok || (d.reply.rc == Cancelled && hop.stopped))
  }

  /** The state of the loop: between hops, or stopped with the last hop's body. */
  ghost predicate Looping(url: Uri, spec: Spec, o: Opts, env: nat -> Hop, log: Log, moved: bool, stop: bool,
                          c: Cursor, body: seq<Byte>, reports: seq<Report>)
  {
    && Told(url, spec, o, env, log, reports)
    && if stop then Ended(spec, o, env, log, moved, body, reports)
       else Going(url, spec, o, log, c) && !moved && |reports| == |log.requests| && Heading(env, log.requests, c)
  }

  /** What is true of a run's log and reports, whatever its outcome. */
  ghost predicate Told(url: Uri, spec: Spec, o: Opts, env: nat -> Hop, log: Log, reports: seq<Report>)
  {
    Sound(url, spec, o, log) && Reported(o, env, log, reports) && Course(o, env, log.requests)
  }

  /** How a good run ends. */
  ghost predicate Ended(spec: Spec, o: Opts, env: nat -> Hop, log: Log, moved: bool, body: seq<Byte>,
                        reports: seq<Report>)
  {
    && reports != [] && Final(o, env(|reports| - 1), reports[|reports| - 1], body)
    && (log.handed.Held? ==> o.streamBody && !o.sink)
    && (moved ==> log.handed.Held? && spec.source)
  }

  method NextHop(url: Uri, spec: Spec, o: Opts, env: nat -> Hop, log0: Log, c0: Cursor, ghost reports0: seq<Report>)
    returns (rc: Code, log: Log, moved: bool, stop: bool, c: Cursor, body: seq<Byte>, ghost reports: seq<Report>)
    requires Fair(env) && Going(url, spec, o, log0, c0)
    requires Reported(o, env, log0, reports0) && |reports0| == |log0.requests|
    requires Course(o, env, log0.requests) && Heading(env, log0.requests, c0)
    ensures rc == Ok ==> Looping(url, spec, o, env, log, moved, stop, c, body, reports)
    ensures rc == Ok && !stop ==> |log.requests| == |log0.requests| + 1
    ensures Told(url, spec, o, env, log, reports)
    ensures rc != Ok ==> log.handed.None? && !moved
  {
    var hop := env(|log0.requests|);
    ghost var said;
    rc, log, moved, stop, c, body, said := Turn(url, spec, o, hop, log0, c0);
    ReportedGrows(o, env, log0, log, reports0, said);
    CourseGrows(o, env, log0.requests, c0, log.requests);
    reports := if said.Report? then reports0 + [said] else reports0;
  }

  /** The hop loop, from a cursor on. */
  method Hops(url: Uri, spec: Spec, o: Opts, env: nat -> Hop, log0: Log, c0: Cursor)
    returns (rc: Code, log: Log, moved: bool, body: seq<Byte>, ghost reports: seq<Report>)
    requires Fair(env) && Looping(url, spec, o, env, log0, false, false, c0, [], [])
    ensures Told(url, spec, o, env, log, reports)
    ensures rc != Ok ==> log.handed.None? && !moved
    ensures rc == Ok ==> Ended(spec, o, env, log, moved, body, reports)
  {
    var stop, c := false, c0;
    rc, log, moved, body, reports := Ok, log0, false, [], [];
    while rc == Ok && !stop
      invariant rc == Ok ==> Looping(url, spec, o, env, log, moved, stop, c, body, reports)
      invariant rc != Ok ==> log.handed.None? && !moved
      invariant Told(url, spec, o, env, log, reports)
      decreases rc == Ok, !stop, 1 + Limit(o) - |log.requests|
    {
      rc, log, moved, stop, c, body, reports := NextHop(url, spec, o, env, log, c, reports);
    }
  }

  lemma AtFirst(url: Uri, spec: Spec, o: Opts, env: nat -> Hop, log: Log, c: Cursor)
    requires log == Log([], 0, [], None)
    requires c == Cursor(url, spec.method_, spec.body, false, spec.source, [TrailKey(spec.method_, url)])
    ensures Looping(url, spec, o, env, log, false, false, c, [], [])
  {
    assert Keys([]) + c.trail == c.trail && c.trail[..0] == [];
    assert !Strayed([], c.uri);
    assert Ready(spec, [], c);
  }

  /** The whole loop. `env` answers hop by hop; `named` is whether the final URL could be built. What
      the caller gets is the body of the last hop, and that was no redirect to follow. */
  method PerformHops(url: Uri, spec: Spec, o: Opts, env: nat -> Hop, named: bool)
    returns (rc: Code, log: Log, moved: bool, body: seq<Byte>, ghost reports: seq<Report>)
    requires Fair(env)
    ensures Told(url, spec, o, env, log, reports)
    ensures rc == Ok ==> reports != [] && Final(o, env(|reports| - 1), reports[|reports| - 1], body)
    ensures log.handed.Held? ==> o.streamBody && !o.sink && rc == (if named then Ok else NoMem)
    ensures moved ==> log.handed.Held? && spec.source
  {
    var c := Cursor(url, spec.method_, spec.body, false, spec.source, [TrailKey(spec.method_, url)]);
    log, moved, body, reports := Log([], 0, [], None), false, [], [];
    AtFirst(url, spec, o, env, log, c);
    if |url.host| > MAX_HOST {
      return BadUrl, log, moved, body, reports;
    }
    rc, log, moved, body, reports := Hops(url, spec, o, env, log, c);
    if rc == Ok && !named {
      rc := NoMem;
    }
  }

  /** A whole run. When it fails, nothing it touched is left behind: a pulled body made before a
      late failure is freed, with its connection and its source. */
  method Perform(url: Uri, spec: Spec, o: Opts, env: nat -> Hop, named: bool)
    returns (rc: Code, log: Log, c: Custody, body: seq<Byte>, ghost reports: seq<Report>)
    requires Fair(env)
    ensures Told(url, spec, o, env, log, reports)
    ensures rc == Ok ==>
      && reports != [] && body == reports[|reports| - 1].reply.body
      && (o.maxRedirects > 0 ==>
            !Redirect.IsRedirect(env(|reports| - 1).status) || env(|reports| - 1).location == NoLocation)
      && (reports[|reports| - 1].reply.rc == Ok
          || (reports[|reports| - 1].reply.rc == Cancelled && env(|reports| - 1).stopped))
      && |body| <= (if o.maxBody > 0 then o.maxBody else 16 * 1024 * 1024)
    ensures |log.requests| <= 1 + (if o.maxRedirects > 0 then o.maxRedirects else 0)
    ensures log.handed.Held? ==> o.streamBody && !o.sink
    ensures rc != Ok ==> log.handed.None?
    ensures spec.source ==> c.releases + (if c.body then 1 else 0) == 1 && !c.engine
    ensures !spec.source ==> c == Custody(false, false, 0)
    ensures c.body ==> rc == Ok && log.handed.Held?
  {
    var moved;
    c := Custody(spec.source, false, 0);
    rc, log, moved, body, reports := PerformHops(url, spec, o, env, named);
    if moved {
      c := c.(engine := false, body := true);
    }
    if rc != Ok && log.handed.Held? {
      // the result is freed: its pulled body closes its connection and releases its source
      var s;
      log, s := TakeBack(log);
      log := Dispose(log, s, Finished(WasCancelled));
      if c.body {
        c := c.(body := false, releases := c.releases + 1);
      }
    }
    if c.engine {
      c := c.(engine := false, releases := c.releases + 1);
    }
  }

  // ---- what a run promises ----

  /** No request is repeated, whatever way its default port is written. */
  lemma NoRequestTwice(o: Opts, spec: Spec, rs: seq<Sent>, i: nat, j: nat)
    requires Chain(o, spec, rs) && i < j < |rs|
    ensures !(rs[i].method_ == rs[j].method_ && SameOrigin(rs[i].uri, rs[j].uri)
              && rs[i].uri.target == rs[j].uri.target)
  {
    var a, b := rs[i], rs[j];
    ChainPair(o, spec, rs, i, j);
    if a.method_ == b.method_ && SameOrigin(a.uri, b.uri) && a.uri.target == b.uri.target {
      SameRequestSameKey(a.method_, a.uri, b.uri);
    }
  }

  /** A caller's secret header goes only to the first request's origin, and only while the chain
      has never left it. */
  lemma SecretsStayHome(o: Opts, spec: Spec, rs: seq<Sent>, i: nat, j: nat)
    requires Chain(o, spec, rs) && i <= j < |rs| && CarriesSecret(o.policy, rs[j])
    ensures SameOrigin(rs[0].uri, rs[j].uri) && SameOrigin(rs[0].uri, rs[i].uri)
  {
    if i < j {
      ChainPair(o, spec, rs, i, j);
    }
    if 0 < j {
      ChainPair(o, spec, rs, 0, j);
    }
    SameOriginIsEquivalence(rs[0].uri, rs[j].uri, rs[i].uri);
    SameOriginIsEquivalence(rs[i].uri, rs[j].uri, rs[0].uri);
  }
}
