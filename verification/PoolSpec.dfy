/** The connection pool as a value: the idle list, the entry under probe, the counters and every
    close or free the pool performs. The operations are the specification the heap list refines;
    the lemmas speak about every run of them, probes that re-enter the pool included. */
module PoolSpec {
  import opened PoolKey

  type StreamId = nat
  type Millis = int

  datatype Entry = Entry(key: Key, stream: StreamId, idleSince: Millis)

  datatype Config = Config(maxIdle: nat, maxPerHost: nat, idleTimeout: int)

  datatype Stats = Stats(hits: nat, misses: nat, stale: nat, expired: nat,
                         capacity: nat, unusable: nat, fork: nat, forks: nat)

  /** Calls the pool makes on a stream. */
  datatype Effect = Close(stream: StreamId) | Free(stream: StreamId)

  datatype Found = Nothing | Miss | Hit(stream: StreamId)

  /** Where an acquisition stands: the probe runs foreign code, so it is a state of its own. */
  datatype Mode =
    | Quiet(last: Found)
    | Scanning(key: Key, now: Millis)
    | Probing(key: Key, now: Millis, entry: Entry)

  datatype State = State(entries: seq<Entry>, stats: Stats, log: seq<Effect>, mode: Mode)

  /** One release, with the environment's answers: did the fork guard trip, is the stream
      readable, did the allocation succeed, what time is it. */
  datatype Call = Call(key: Key, stream: StreamId, reuse: bool, forked: bool,
                       readable: bool, memory: bool, now: Millis)

  // ---- destroying entries ----

  function CloseAndFree(s: StreamId): seq<Effect>
  {
    [Close(s), Free(s)]
  }

  function CloseAll(es: seq<Entry>): seq<Effect>
  {
    if es == [] then [] else CloseAndFree(es[0].stream) + CloseAll(es[1..])
  }

  function FreeAll(es: seq<Entry>): seq<Effect>
  {
    if es == [] then [] else [Free(es[0].stream)] + FreeAll(es[1..])
  }

  lemma CloseAllStep(log: seq<Effect>, es: seq<Entry>)
    requires es != []
    ensures log + CloseAll(es) == log + CloseAndFree(es[0].stream) + CloseAll(es[1..])
  {
    var first, rest := CloseAndFree(es[0].stream), CloseAll(es[1..]);
    assert log + (first + rest) == log + first + rest;
  }

  lemma FreeAllStep(log: seq<Effect>, es: seq<Entry>)
    requires es != []
    ensures log + FreeAll(es) == log + [Free(es[0].stream)] + FreeAll(es[1..])
  {
    var first, rest := [Free(es[0].stream)], FreeAll(es[1..]);
    assert log + (first + rest) == log + first + rest;
  }

  /** What the two orders of destruction are, place by place. */
  lemma {:induction false} DestroyedInOrder(es: seq<Entry>, i: nat)
    requires i < |es|
    ensures |CloseAll(es)| == 2 * |es| && |FreeAll(es)| == |es|
    ensures CloseAll(es)[2 * i] == Close(es[i].stream) && CloseAll(es)[2 * i + 1] == Free(es[i].stream)
    ensures FreeAll(es)[i] == Free(es[i].stream)
  {
    if i > 0 {
      DestroyedInOrder(es[1..], i - 1);
    } else if |es| > 1 {
      DestroyedInOrder(es[1..], 0);
    }
  }

  /** The count is the number of places in the list that hold an entry of the host. */
  lemma {:induction false} CountHostMeans(es: seq<Entry>, k: Key, at: set<nat>)
    requires forall i: nat :: i in at <==> i < |es| && SameHost(es[i].key, k)
    ensures CountHost(es, k) == |at|
    decreases |es|
  {
    if es == [] {
      assert at == {};
    } else {
      var n := |es| - 1;
      CountHostLast(es, k);
      CountHostMeans(es[..n], k, at - {n});
    }
  }

  lemma {:induction false} CountHostLast(es: seq<Entry>, k: Key)
    requires es != []
    ensures CountHost(es, k)
            == CountHost(es[..|es| - 1], k) + (if SameHost(es[|es| - 1].key, k) then 1 else 0)
  {
    if |es| > 1 {
      CountHostLast(es[1..], k);
      assert es[..|es| - 1][1..] == es[1..][..|es| - 2];
    }
  }

  function Without(es: seq<Entry>, i: nat): (r: seq<Entry>)
    requires i < |es|
    ensures |r| == |es| - 1
  {
    es[..i] + es[i + 1..]
  }

  // ---- choosing entries ----

  function CountHost(es: seq<Entry>, k: Key): (n: nat)
    ensures n <= |es|
  {
    if es == [] then 0 else (if SameHost(es[0].key, k) then 1 else 0) + CountHost(es[1..], k)
  }

  /** Index of the newest entry with an equal key, or the length when there is none. */
  function FirstMatch(es: seq<Entry>, k: Key): (i: nat)
    ensures i <= |es|
  {
    if es == [] then 0 else if KeyEq(es[0].key, k) then 0 else 1 + FirstMatch(es[1..], k)
  }

  lemma {:induction false} FirstMatchIsNewest(es: seq<Entry>, k: Key)
    ensures var i := FirstMatch(es, k);
            && (i < |es| ==> KeyEq(es[i].key, k))
            && (forall j :: 0 <= j < i ==> !KeyEq(es[j].key, k))
  {
    if es != [] && !KeyEq(es[0].key, k) {
      FirstMatchIsNewest(es[1..], k);
    }
  }

  /** Index of the oldest entry for the host, or the length when there is none. */
  function LastOfHost(es: seq<Entry>, k: Key): (i: nat)
    ensures i <= |es|
  {
    if es == [] then 0
    else
      var n := |es| - 1;
      if SameHost(es[n].key, k) then n
      else
        var i := LastOfHost(es[..n], k);
        if i == n then |es| else i
  }

  lemma {:induction false} LastOfHostIsOldest(es: seq<Entry>, k: Key)
    ensures var i := LastOfHost(es, k);
            && (i < |es| ==> SameHost(es[i].key, k))
            && (forall j :: 0 <= j < |es| && (i < |es| ==> i < j) ==> !SameHost(es[j].key, k))
  {
    if es != [] && !SameHost(es[|es| - 1].key, k) {
      LastOfHostIsOldest(es[..|es| - 1], k);
    }
  }

  // ---- operations ----

  function CheckFork(st: State, forked: bool): State
  {
    if !forked then st
    else st.(entries := [], log := st.log + FreeAll(st.entries),
             stats := st.stats.(fork := st.stats.fork + |st.entries|, forks := st.stats.forks + 1))
  }

  function Clear(st: State): State
  {
    st.(entries := [], log := st.log + CloseAll(st.entries))
  }

  function EvictAt(st: State, i: nat): (r: State)
    requires i < |st.entries|
  {
    st.(entries := Without(st.entries, i), log := st.log + CloseAndFree(st.entries[i].stream),
        stats := st.stats.(capacity := st.stats.capacity + 1))
  }

  function EvictHost(st: State, k: Key): State
  {
    var i := LastOfHost(st.entries, k);
    if i == |st.entries| then st else EvictAt(st, i)
  }

  function EvictOverflow(cfg: Config, st: State): (r: State)
    requires cfg.maxIdle > 0
    ensures |r.entries| < cfg.maxIdle && |r.entries| <= |st.entries|
    ensures r.mode == st.mode
    decreases |st.entries|
  {
    if |st.entries| < cfg.maxIdle then st else EvictOverflow(cfg, EvictAt(st, |st.entries| - 1))
  }

  /** Make room for one more entry of this host: the host's oldest first, then the pool's. */
  function MakeRoom(cfg: Config, st: State, k: Key): (r: State)
    requires cfg.maxIdle > 0
    ensures |r.entries| < cfg.maxIdle && |r.entries| <= |st.entries|
  {
    EvictOverflow(cfg, if cfg.maxPerHost > 0 && CountHost(st.entries, k) >= cfg.maxPerHost
                       then EvictHost(st, k) else st)
  }

  function Discard(st: State, c: Call): State
  {
    st.(log := st.log + CloseAndFree(c.stream))
  }

  function Release(cfg: Config, before: State, c: Call): (r: State)
    ensures |r.entries| <= |before.entries| + 1
    ensures r.mode == before.mode
  {
    var st := CheckFork(before, c.forked);
    if !c.reuse then Discard(st.(stats := st.stats.(unusable := st.stats.unusable + 1)), c)
    else if c.readable then Discard(st.(stats := st.stats.(stale := st.stats.stale + 1)), c)
    else if cfg.maxIdle == 0 then Discard(st.(stats := st.stats.(capacity := st.stats.capacity + 1)), c)
    else if !c.memory then Discard(st, c)
    else
      var room := MakeRoom(cfg, st, c.key);
      room.(entries := [Entry(c.key, c.stream, c.now)] + room.entries)
  }

  function Releases(cfg: Config, st: State, cs: seq<Call>): (r: State)
    ensures |r.entries| <= |st.entries| + |cs|
    ensures r.mode == st.mode
    decreases |cs|
  {
    if cs == [] then st else Releases(cfg, Release(cfg, st, cs[0]), cs[1..])
  }

  predicate Expired(cfg: Config, now: Millis, e: Entry)
  {
    cfg.idleTimeout > 0 && now - e.idleSince >= cfg.idleTimeout
  }

  function Begin(st: State, key: Key, now: Millis, forked: bool): State
  {
    CheckFork(st, forked).(mode := Scanning(key, now))
  }

  /** Unlink the newest entry with the key, whatever the list has become, and either drop it as
      expired or put it under probe. Without one, the acquisition misses. */
  function Advance(cfg: Config, st: State): (r: State)
    requires st.mode.Scanning?
    ensures r.mode.Quiet? || |r.entries| == |st.entries| - 1
  {
    var i := FirstMatch(st.entries, st.mode.key);
    if i == |st.entries| then
      st.(mode := Quiet(Miss), stats := st.stats.(misses := st.stats.misses + 1))
    else
      var e := st.entries[i];
      var rest := st.(entries := Without(st.entries, i));
      if Expired(cfg, st.mode.now, e) then
        rest.(stats := st.stats.(expired := st.stats.expired + 1), log := st.log + CloseAndFree(e.stream))
      else
        rest.(mode := Probing(st.mode.key, st.mode.now, e))
  }

  /** The probe has answered: a stale entry is destroyed and the scan starts over from the head. */
  function Verdict(st: State, stale: bool): (r: State)
    requires st.mode.Probing?
    ensures r.entries == st.entries
  {
    var m := st.mode;
    if stale then
      st.(mode := Scanning(m.key, m.now), stats := st.stats.(stale := st.stats.stale + 1),
          log := st.log + CloseAndFree(m.entry.stream))
    else
      st.(mode := Quiet(Hit(m.entry.stream)), stats := st.stats.(hits := st.stats.hits + 1))
  }

  /** How many releases the remaining probes may re-enter with. */
  function Pending(reentry: seq<seq<Call>>): nat
  {
    if reentry == [] then 0 else |reentry[0]| + Pending(reentry[1..])
  }

  function Head(reentry: seq<seq<Call>>): seq<Call>
  {
    if reentry == [] then [] else reentry[0]
  }

  function Tail(reentry: seq<seq<Call>>): (r: seq<seq<Call>>)
    ensures Pending(reentry) == |Head(reentry)| + Pending(r)
  {
    if reentry == [] then [] else reentry[1..]
  }

  /** The whole scan. `stale` holds the streams whose probe fails; the k-th probe re-enters the
      pool with the k-th list of releases. It ends whenever the re-entries are finitely many. */
  function Scan(cfg: Config, st: State, stale: set<StreamId>, reentry: seq<seq<Call>>): (r: State)
    ensures !st.mode.Probing? ==> r.mode.Quiet?
    decreases |st.entries| + Pending(reentry)
  {
    if !st.mode.Scanning? then st
    else
      var next := Advance(cfg, st);
      if next.mode.Quiet? then next
      else if next.mode.Scanning? then Scan(cfg, next, stale, reentry)
      else
        var probed := Releases(cfg, next, Head(reentry));
        Scan(cfg, Verdict(probed, next.mode.entry.stream in stale), stale, Tail(reentry))
  }

  /** One turn of the scan: what one match, expired or probed, leads to. */
  function Turn(cfg: Config, st: State, stale: set<StreamId>, reentered: seq<Call>): State
    requires st.mode.Scanning?
  {
    var next := Advance(cfg, st);
    if next.mode.Probing? then Verdict(Releases(cfg, next, reentered), next.mode.entry.stream in stale) else next
  }

  lemma ScanTurns(cfg: Config, st: State, stale: set<StreamId>, reentry: seq<seq<Call>>)
    requires st.mode.Scanning?
    ensures Scan(cfg, st, stale, reentry) ==
            Scan(cfg, Turn(cfg, st, stale, Head(reentry)), stale,
                 if Advance(cfg, st).mode.Probing? then Tail(reentry) else reentry)
  {
  }

  /** A turn on a match either hands the entry out or leaves a strictly shorter scan to do. */
  lemma TurnMakesProgress(cfg: Config, st: State, stale: set<StreamId>, reentered: seq<Call>)
    requires st.mode.Scanning? && FirstMatch(st.entries, st.mode.key) < |st.entries|
    ensures var e := st.entries[FirstMatch(st.entries, st.mode.key)];
            var t := Turn(cfg, st, stale, reentered);
            && Advance(cfg, st).mode.Probing? == !Expired(cfg, st.mode.now, e)
            && t.mode == (if Expired(cfg, st.mode.now, e) || e.stream in stale then st.mode else Quiet(Hit(e.stream)))
            && |t.entries| < |st.entries| + (if Expired(cfg, st.mode.now, e) then 0 else |reentered|)
  {
  }

  function Acquire(cfg: Config, st: State, key: Key, now: Millis, forked: bool,
                   stale: set<StreamId>, reentry: seq<seq<Call>>): (r: State)
    ensures r.mode.Quiet?
  {
    Scan(cfg, Begin(st, key, now, forked), stale, reentry)
  }
}
