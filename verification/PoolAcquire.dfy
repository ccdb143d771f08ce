/** What an acquisition returns: the newest usable connection of an equal key and nothing else
    moved, and, through the key, a connection of the same proxy and trust identity. */
module PoolAcquire {
  import Base
  import opened PoolKey
  import opened PoolSpec
  import opened PoolRuns

  // ---- without re-entry: an exact description ----

  predicate Usable(cfg: Config, e: Entry, now: Millis, stale: set<StreamId>)
  {
    !Expired(cfg, now, e) && e.stream !in stale
  }

  predicate Good(cfg: Config, e: Entry, key: Key, now: Millis, stale: set<StreamId>)
  {
    KeyEq(e.key, key) && Usable(cfg, e, now, stale)
  }

  function FirstGood(cfg: Config, es: seq<Entry>, key: Key, now: Millis, stale: set<StreamId>): (j: nat)
    ensures j <= |es|
    ensures j < |es| ==> Good(cfg, es[j], key, now, stale)
    ensures forall i :: 0 <= i < j ==> !Good(cfg, es[i], key, now, stale)
  {
    if es == [] || Good(cfg, es[0], key, now, stale) then 0
    else 1 + FirstGood(cfg, es[1..], key, now, stale)
  }

  /** The entries whose key does, or does not, equal the given one, in order. */
  function Pick(es: seq<Entry>, key: Key, same: bool): seq<Entry>
  {
    if es == [] then []
    else if KeyEq(es[0].key, key) == same then [es[0]] + Pick(es[1..], key, same)
    else Pick(es[1..], key, same)
  }

  lemma {:induction false} PickConcat(a: seq<Entry>, b: seq<Entry>, key: Key, same: bool)
    ensures Pick(a + b, key, same) == Pick(a, key, same) + Pick(b, key, same)
  {
    if a == [] {
      assert a + b == b;
    } else {
      PickConcat(a[1..], b, key, same);
      assert (a + b)[1..] == a[1..] + b;
    }
  }

  lemma {:induction false} NoneSame(a: seq<Entry>, key: Key)
    requires forall i :: 0 <= i < |a| ==> !KeyEq(a[i].key, key)
    ensures Pick(a, key, false) == a && Pick(a, key, true) == []
  {
    if a != [] {
      NoneSame(a[1..], key);
    }
  }

  lemma WithoutAt(es: seq<Entry>, i: nat, j: nat)
    requires i < j <= |es|
    ensures Without(es, i)[..j - 1] == es[..i] + es[i + 1..j]
    ensures j < |es| ==> Without(es, i)[j - 1] == es[j] && Without(es, i)[j..] == es[j + 1..]
  {
  }

  /** Removing a match that is no good: the scan resumes as if it had never been there. */
  lemma SkipBad(cfg: Config, es: seq<Entry>, i: nat, key: Key, now: Millis, stale: set<StreamId>)
    requires i < |es| && i == FirstMatch(es, key) && !Usable(cfg, es[i], now, stale)
    ensures FirstGood(cfg, es, key, now, stale) == 1 + FirstGood(cfg, Without(es, i), key, now, stale) > i
  {
    FirstMatchIsNewest(es, key);
    var r := Without(es, i);
    var j := FirstGood(cfg, es, key, now, stale);
    var j' := FirstGood(cfg, r, key, now, stale);
    assert forall k :: 0 <= k < |r| ==> r[k] == es[if k < i then k else k + 1];
    assert !Good(cfg, es[i], key, now, stale);
    assert forall k :: 0 <= k < i ==> !Good(cfg, es[k], key, now, stale);
    assert j > i;
    assert j' < |r| ==> Good(cfg, es[j' + 1], key, now, stale);
    assert j < |es| ==> Good(cfg, r[j - 1], key, now, stale);
  }

  /** What stays when the entry at j is handed out: older entries, and newer ones of other keys. */
  function Remaining(es: seq<Entry>, key: Key, j: nat): seq<Entry>
    requires j <= |es|
  {
    Pick(es[..j], key, false) + (if j < |es| then es[j + 1..] else [])
  }

  lemma PickAroundMatch(es: seq<Entry>, i: nat, j: nat, key: Key)
    requires i < j <= |es| && i == FirstMatch(es, key)
    ensures Remaining(Without(es, i), key, j - 1) == Remaining(es, key, j)
    ensures [es[i]] + Pick(Without(es, i)[..j - 1], key, true) == Pick(es[..j], key, true)
  {
    FirstMatchIsNewest(es, key);
    var front, back := es[..i], es[i + 1..j];
    WithoutAt(es, i, j);
    NoneSame(front, key);
    assert es[..j] == front + ([es[i]] + back);
    assert ([es[i]] + back)[1..] == back;
    PickConcat(front, [es[i]] + back, key, false);
    PickConcat(front, [es[i]] + back, key, true);
    PickConcat(front, back, key, false);
    PickConcat(front, back, key, true);
  }

  lemma ClosesFirst(log: seq<Effect>, e: Entry, rest: seq<Entry>)
    ensures log + CloseAndFree(e.stream) + CloseAll(rest) == log + CloseAll([e] + rest)
  {
    assert ([e] + rest)[1..] == rest;
    CloseAllStep(log, [e] + rest);
  }

  /** The outcome of a scan that takes the entry at j of a list and has dropped the newer matches. */
  ghost predicate Takes(r: State, es: seq<Entry>, log: seq<Effect>, key: Key, j: nat)
    requires j <= |es|
  {
    && r.mode == Quiet(if j < |es| then Hit(es[j].stream) else Miss)
    && r.entries == Remaining(es, key, j)
    && r.log == log + CloseAll(Pick(es[..j], key, true))
  }

  /** What holds without the newest match, a bad one, holds with it. */
  lemma TakesBehind(cfg: Config, st: State, after: State, stale: set<StreamId>, r: State)
    requires st.mode.Scanning? && after.mode == st.mode
    requires var i := FirstMatch(st.entries, st.mode.key);
             && i < |st.entries| && !Usable(cfg, st.entries[i], st.mode.now, stale)
             && after.entries == Without(st.entries, i)
             && after.log == st.log + CloseAndFree(st.entries[i].stream)
    requires Takes(r, after.entries, after.log, st.mode.key,
                   FirstGood(cfg, after.entries, st.mode.key, st.mode.now, stale))
    ensures Takes(r, st.entries, st.log, st.mode.key, FirstGood(cfg, st.entries, st.mode.key, st.mode.now, stale))
  {
    var es, key, now := st.entries, st.mode.key, st.mode.now;
    var i, j := FirstMatch(es, key), FirstGood(cfg, after.entries, key, now, stale);
    FirstMatchIsNewest(es, key);
    SkipBad(cfg, es, i, key, now, stale);
    PickAroundMatch(es, i, j + 1, key);
    WithoutAt(es, i, j + 1);
    ClosesFirst(st.log, es[i], Pick(after.entries[..j], key, true));
  }

  /** Without re-entry the scan returns the newest entry that matches and passes both checks; it
      destroys, newest first, exactly the newer matches that failed, and keeps every other entry
      in its order. */
  lemma {:induction false} AcquireTakesNewestGood(cfg: Config, st: State, stale: set<StreamId>)
    requires st.mode.Scanning?
    ensures var es, key := st.entries, st.mode.key;
            Takes(Scan(cfg, st, stale, []), es, st.log, key, FirstGood(cfg, es, key, st.mode.now, stale))
    decreases |st.entries|
  {
    var i := FirstMatch(st.entries, st.mode.key);
    if i < |st.entries| && !Usable(cfg, st.entries[i], st.mode.now, stale) {
      var after := AfterBad(cfg, st, stale);
      AcquireTakesNewestGood(cfg, after, stale);
      TakesBehind(cfg, st, after, stale, Scan(cfg, after, stale, []));
    } else {
      AtOnce(cfg, st, stale);
    }
  }

  /** The newest match is usable, or there is none. */
  lemma AtOnce(cfg: Config, st: State, stale: set<StreamId>)
    requires st.mode.Scanning?
    requires var i := FirstMatch(st.entries, st.mode.key);
             i < |st.entries| ==> Usable(cfg, st.entries[i], st.mode.now, stale)
    ensures var r := Scan(cfg, st, stale, []);
            var es, i := st.entries, FirstMatch(st.entries, st.mode.key);
            && FirstGood(cfg, es, st.mode.key, st.mode.now, stale) == i
            && r.mode == Quiet(if i < |es| then Hit(es[i].stream) else Miss)
            && r.entries == Remaining(es, st.mode.key, i)
            && Pick(es[..i], st.mode.key, true) == [] && r.log == st.log
  {
    var es, i := st.entries, FirstMatch(st.entries, st.mode.key);
    FirstMatchIsNewest(es, st.mode.key);
    NoneSame(es[..i], st.mode.key);
  }

  lemma AfterBad(cfg: Config, st: State, stale: set<StreamId>) returns (after: State)
    requires st.mode.Scanning?
    requires var i := FirstMatch(st.entries, st.mode.key);
             i < |st.entries| && !Usable(cfg, st.entries[i], st.mode.now, stale)
    ensures var i := FirstMatch(st.entries, st.mode.key);
            && after.entries == Without(st.entries, i) && after.mode == st.mode
            && after.log == st.log + CloseAndFree(st.entries[i].stream)
            && Scan(cfg, st, stale, []) == Scan(cfg, after, stale, [])
  {
    var next := Advance(cfg, st);
    after := if next.mode.Probing? then Verdict(Releases(cfg, next, []), true) else next;
  }

  /** After a fork nothing of the parent's is handed out: its entries are freed unclosed and counted,
      and the acquisition misses. */
  lemma AfterForkMisses(cfg: Config, st: State, key: Key, now: Millis, stale: set<StreamId>,
                        reentry: seq<seq<Call>>)
    ensures var s := st.stats;
            Acquire(cfg, st, key, now, true, stale, reentry)
            == st.(entries := [], log := st.log + FreeAll(st.entries), mode := Quiet(Miss),
                   stats := s.(fork := s.fork + |st.entries|, forks := s.forks + 1, misses := s.misses + 1))
    ensures Acquire(cfg, st, key, now, false, stale, reentry)
            == Scan(cfg, st.(mode := Scanning(key, now)), stale, reentry)
  {
  }

  // ---- with re-entry: an acquisition is a legal run of the pool ----

  /** The re-entering releases give up distinct streams the caller holds, in time order. */
  ghost predicate Releasable(w: World, cs: seq<Call>)
    decreases |cs|
  {
    cs == [] ||
    (cs[0].stream in w.held && w.clock <= cs[0].now
     && Releasable(w.(held := w.held - {cs[0].stream}, clock := cs[0].now), cs[1..]))
  }

  function Flat(reentry: seq<seq<Call>>): seq<Call>
  {
    if reentry == [] then [] else reentry[0] + Flat(reentry[1..])
  }

  lemma {:induction false} RunConcat(cfg: Config, w: World, a: seq<Action>, b: seq<Action>)
    requires LegalRun(cfg, w, a) && LegalRun(cfg, Run(cfg, w, a), b)
    ensures LegalRun(cfg, w, a + b) && Run(cfg, w, a + b) == Run(cfg, Run(cfg, w, a), b)
    decreases |a|
  {
    if a == [] {
      assert a + b == b;
    } else {
      assert (a + b)[1..] == a[1..] + b;
      RunConcat(cfg, Step(cfg, w, a[0]), a[1..], b);
    }
  }

  lemma {:induction false} ReleasesAsRun(cfg: Config, w: World, cs: seq<Call>, more: seq<Call>)
    returns (acts: seq<Action>)
    requires w.pool.mode.Probing? && Releasable(w, cs + more)
    ensures LegalRun(cfg, w, acts)
    ensures Run(cfg, w, acts).pool == Releases(cfg, w.pool, cs)
    ensures Releasable(Run(cfg, w, acts), more)
    decreases |cs|
  {
    if cs == [] {
      assert cs + more == more;
      acts := [];
    } else {
      assert (cs + more)[1..] == cs[1..] + more;
      var w1 := Step(cfg, w, DoRelease(cs[0]));
      ReleasableDependsOnHeld(w.(held := w.held - {cs[0].stream}, clock := cs[0].now), w1, cs[1..] + more);
      var tail := ReleasesAsRun(cfg, w1, cs[1..], more);
      acts := [DoRelease(cs[0])] + tail;
      assert acts[1..] == tail;
    }
  }

  lemma {:induction false} ReleasableDependsOnHeld(v: World, w: World, cs: seq<Call>)
    requires Releasable(v, cs) && v.held == w.held && v.clock == w.clock
    ensures Releasable(w, cs)
    decreases |cs|
  {
    if cs != [] {
      ReleasableDependsOnHeld(v.(held := v.held - {cs[0].stream}, clock := cs[0].now),
                              w.(held := w.held - {cs[0].stream}, clock := cs[0].now), cs[1..]);
    }
  }

  /** A whole scan, however its probes re-enter the pool, is a legal run, so everything proved of
      runs holds after it and in every state the re-entering releases see. */
  lemma {:induction false} ScanAsRun(cfg: Config, w: World, stale: set<StreamId>, reentry: seq<seq<Call>>)
    returns (acts: seq<Action>)
    requires w.pool.mode.Scanning? && Releasable(w, Flat(reentry))
    ensures LegalRun(cfg, w, acts)
    ensures Run(cfg, w, acts).pool == Scan(cfg, w.pool, stale, reentry)
    decreases |w.pool.entries| + Pending(reentry), 0
  {
    var w1 := Step(cfg, w, DoAdvance);
    ReleasableDependsOnHeld(w, w1, Flat(reentry));
    if w1.pool.mode.Quiet? {
      acts := [DoAdvance];
      assert Run(cfg, w1, acts[1..]) == w1;
    } else if w1.pool.mode.Scanning? {
      var tail := ScanAsRun(cfg, w1, stale, reentry);
      acts := [DoAdvance] + tail;
      assert acts[1..] == tail;
    } else {
      assert Flat(reentry) == Head(reentry) + Flat(Tail(reentry));
      var probing := ReleasesAsRun(cfg, w1, Head(reentry), Flat(Tail(reentry)));
      var w2 := Run(cfg, w1, probing);
      var v := DoVerdict(w1.pool.mode.entry.stream in stale);
      var w3 := Step(cfg, w2, v);
      var tail := AfterVerdict(cfg, w2, v, stale, Tail(reentry));
      RunConcat(cfg, w1, probing, [v] + tail);
      acts := [DoAdvance] + (probing + ([v] + tail));
      assert acts[1..] == probing + ([v] + tail);
    }
  }

  lemma {:induction false} AfterVerdict(cfg: Config, w: World, v: Action, stale: set<StreamId>, reentry: seq<seq<Call>>)
    returns (tail: seq<Action>)
    requires v.DoVerdict? && w.pool.mode.Probing? && Releasable(w, Flat(reentry))
    ensures LegalRun(cfg, w, [v] + tail)
    ensures Run(cfg, w, [v] + tail).pool == Scan(cfg, Verdict(w.pool, v.stale), stale, reentry)
    decreases |w.pool.entries| + Pending(reentry), 1
  {
    var w1 := Step(cfg, w, v);
    tail := [];
    if v.stale {
      ReleasableDependsOnHeld(w, w1, Flat(reentry));
      tail := ScanAsRun(cfg, w1, stale, reentry);
    }
    assert ([v] + tail)[1..] == tail;
  }

  // ---- with re-entry: what is handed out and what stays ----

  /** The elements of a, in their order, among those of b. */
  predicate Sub(a: seq<Entry>, b: seq<Entry>)
  {
    a == [] || (b != [] && ((a[0] == b[0] && Sub(a[1..], b[1..])) || Sub(a, b[1..])))
  }

  lemma {:induction false} SubSelf(a: seq<Entry>)
    ensures Sub(a, a)
  {
    if a != [] {
      SubSelf(a[1..]);
    }
  }

  lemma {:induction false} SubTrans(a: seq<Entry>, b: seq<Entry>, c: seq<Entry>)
    requires Sub(a, b) && Sub(b, c)
    ensures Sub(a, c)
    decreases |b| + |c|
  {
    if a != [] {
      if b[0] == c[0] && Sub(b[1..], c[1..]) {
        if a[0] == b[0] && Sub(a[1..], b[1..]) {
          SubTrans(a[1..], b[1..], c[1..]);
        } else {
          SubTrans(a, b[1..], c[1..]);
        }
      } else {
        SubTrans(a, b, c[1..]);
      }
    }
  }

  /** A part of a concatenation is a part of each. */
  lemma {:induction false} SubOfConcat(a: seq<Entry>, b: seq<Entry>, c: seq<Entry>)
    returns (x: seq<Entry>, y: seq<Entry>)
    requires Sub(a, b + c)
    ensures a == x + y && Sub(x, b) && Sub(y, c)
    decreases |b|
  {
    if b == [] {
      assert b + c == c;
      x, y := [], a;
    } else if a == [] {
      x, y := [], [];
    } else {
      assert (b + c)[1..] == b[1..] + c;
      if a[0] == b[0] && Sub(a[1..], b[1..] + c) {
        var t;
        t, y := SubOfConcat(a[1..], b[1..], c);
        x := [a[0]] + t;
        assert x[1..] == t;
      } else {
        x, y := SubOfConcat(a, b[1..], c);
      }
    }
  }

  lemma {:induction false} SubHas(a: seq<Entry>, b: seq<Entry>, e: Entry)
    requires Sub(a, b) && e in a
    ensures e in b
  {
    if e == a[0] && a[0] == b[0] {
    } else if a[0] == b[0] && Sub(a[1..], b[1..]) {
      SubHas(a[1..], b[1..], e);
    } else {
      SubHas(a, b[1..], e);
    }
  }

  lemma {:induction false} WithoutIsSub(es: seq<Entry>, i: nat)
    requires i < |es|
    ensures Sub(Without(es, i), es)
  {
    if i == 0 {
      SubSelf(es[1..]);
      assert Without(es, 0) == es[1..];
    } else {
      WithoutIsSub(es[1..], i - 1);
      assert Without(es, i)[1..] == Without(es[1..], i - 1);
    }
  }

  lemma {:induction false} OverflowIsSub(cfg: Config, st: State)
    requires cfg.maxIdle > 0
    ensures Sub(EvictOverflow(cfg, st).entries, st.entries)
    decreases |st.entries|
  {
    if |st.entries| < cfg.maxIdle {
      SubSelf(st.entries);
    } else {
      var i := |st.entries| - 1;
      OverflowIsSub(cfg, EvictAt(st, i));
      WithoutIsSub(st.entries, i);
      SubTrans(EvictOverflow(cfg, st).entries, Without(st.entries, i), st.entries);
    }
  }

  /** An entry that one of these releases put into the pool. */
  predicate Brought(e: Entry, cs: seq<Call>)
  {
    exists i :: && 0 <= i < |cs| && e == Entry(cs[i].key, cs[i].stream, cs[i].now)
                && cs[i].reuse && !cs[i].readable
  }

  /** A list that has grown at its new end by some releases, and otherwise only lost entries. */
  ghost predicate Grown(news: seq<Entry>, olds: seq<Entry>, now: seq<Entry>, was: seq<Entry>, cs: seq<Call>)
  {
    now == news + olds && Sub(olds, was) && forall e :: e in news ==> Brought(e, cs)
  }

  lemma ReleaseShape(cfg: Config, st: State, c: Call) returns (news: seq<Entry>, olds: seq<Entry>)
    ensures Grown(news, olds, Release(cfg, st, c).entries, st.entries, [c])
  {
    var swept := CheckFork(st, c.forked);
    SubSelf(st.entries);
    news, olds := [], Release(cfg, st, c).entries;
    if c.reuse && !c.readable && cfg.maxIdle > 0 && c.memory {
      var fewer := Trimmed(cfg, swept, c.key);
      OverflowIsSub(cfg, fewer);
      SubSelf(swept.entries);
      var i := LastOfHost(swept.entries, c.key);
      if i < |swept.entries| {
        WithoutIsSub(swept.entries, i);
      }
      olds := EvictOverflow(cfg, fewer).entries;
      SubTrans(olds, fewer.entries, swept.entries);
      SubTrans(olds, swept.entries, st.entries);
      news := [Entry(c.key, c.stream, c.now)];
      assert [c][0] == c;
    }
  }

  /** One change after another. */
  lemma GrownTwice(n1: seq<Entry>, o1: seq<Entry>, n2: seq<Entry>, o2: seq<Entry>,
                   was: seq<Entry>, mid: seq<Entry>, now: seq<Entry>, cs: seq<Call>, ds: seq<Call>)
    returns (news: seq<Entry>, olds: seq<Entry>)
    requires Grown(n1, o1, mid, was, cs) && Grown(n2, o2, now, mid, ds)
    ensures Grown(news, olds, now, was, cs + ds)
  {
    var x, y := SubOfConcat(o2, n1, o1);
    news, olds := n2 + x, y;
    SubTrans(y, o1, was);
    forall e | e in news
      ensures Brought(e, cs + ds)
    {
      if e in n2 {
        var i :| 0 <= i < |ds| && e == Entry(ds[i].key, ds[i].stream, ds[i].now) && ds[i].reuse && !ds[i].readable;
        assert (cs + ds)[|cs| + i] == ds[i];
      } else {
        SubHas(x, n1, e);
        var i :| 0 <= i < |cs| && e == Entry(cs[i].key, cs[i].stream, cs[i].now) && cs[i].reuse && !cs[i].readable;
        assert (cs + ds)[i] == cs[i];
      }
    }
  }

  lemma {:induction false} ReleasesShape(cfg: Config, st: State, cs: seq<Call>)
    returns (news: seq<Entry>, olds: seq<Entry>)
    ensures Grown(news, olds, Releases(cfg, st, cs).entries, st.entries, cs)
    decreases |cs|
  {
    SubSelf(st.entries);
    news, olds := [], st.entries;
    if cs != [] {
      var n1, o1 := ReleaseShape(cfg, st, cs[0]);
      var n2, o2 := ReleasesShape(cfg, Release(cfg, st, cs[0]), cs[1..]);
      news, olds := GrownTwice(n1, o1, n2, o2, st.entries, Release(cfg, st, cs[0]).entries,
                               Releases(cfg, st, cs).entries, [cs[0]], cs[1..]);
      assert [cs[0]] + cs[1..] == cs;
    }
  }

  lemma {:induction false} OverflowTakesOldest(cfg: Config, st: State)
    requires cfg.maxIdle > 0
    ensures EvictOverflow(cfg, st).entries == st.entries[..Base.Min(|st.entries|, cfg.maxIdle - 1)]
    decreases |st.entries|
  {
    if |st.entries| >= cfg.maxIdle {
      var i := |st.entries| - 1;
      OverflowTakesOldest(cfg, EvictAt(st, i));
      assert Without(st.entries, i) == st.entries[..i];
    }
  }

  /** What a release removes, short of a fork: the host's oldest entry when the host is at its cap,
      and then the oldest of all, as many as it takes to be below the pool's. */
  lemma ReleaseEvicts(cfg: Config, st: State, c: Call)
    requires !c.forked && c.reuse && !c.readable && cfg.maxIdle > 0 && c.memory
    ensures var es := st.entries;
            var i := LastOfHost(es, c.key);
            var full := cfg.maxPerHost > 0 && CountHost(es, c.key) >= cfg.maxPerHost;
            var kept := if full && i < |es| then Without(es, i) else es;
            Release(cfg, st, c).entries
              == [Entry(c.key, c.stream, c.now)] + kept[..Base.Min(|kept|, cfg.maxIdle - 1)]
  {
    OverflowTakesOldest(cfg, Trimmed(cfg, st, c.key));
  }

  /** Everything a release decides. A connection is kept exactly when it may be used again, nothing
      waits on it unread, pooling is on and memory suffices; then it is the newest entry and only
      capacity evictions are destroyed beside it. Otherwise it is closed and freed at once and the
      list is left as the fork guard left it. One counter says which reason came first. */
  lemma ReleaseDisposition(cfg: Config, st: State, c: Call)
    ensures var r := Release(cfg, st, c);
            var kept := if c.forked then [] else st.entries;
            var log := if c.forked then st.log + FreeAll(st.entries) else st.log;
            var pooled := c.reuse && !c.readable && cfg.maxIdle > 0 && c.memory;
            && (!pooled ==> r.entries == kept && r.log == log + [Close(c.stream), Free(c.stream)])
            && (pooled ==> r.entries != [] && r.entries[0] == Entry(c.key, c.stream, c.now))
            && (pooled && |kept| < cfg.maxIdle && (cfg.maxPerHost == 0 || CountHost(kept, c.key) < cfg.maxPerHost)
                ==> r.entries == [Entry(c.key, c.stream, c.now)] + kept && r.log == log)
            && r.stats.unusable == st.stats.unusable + (if !c.reuse then 1 else 0)
            && r.stats.stale == st.stats.stale + (if c.reuse && c.readable then 1 else 0)
            && r.stats.capacity == st.stats.capacity
                 + (if pooled then |kept| + 1 - |r.entries|
                    else if c.reuse && !c.readable && cfg.maxIdle == 0 then 1 else 0)
            && r.stats.fork == st.stats.fork + (if c.forked then |st.entries| else 0)
            && r.stats.forks == st.stats.forks + (if c.forked then 1 else 0)
            && (r.stats.hits, r.stats.misses, r.stats.expired)
               == (st.stats.hits, st.stats.misses, st.stats.expired)
  {
    if c.reuse && !c.readable && cfg.maxIdle > 0 && c.memory {
      var swept := CheckFork(st, c.forked);
      OverflowCounts(cfg, Trimmed(cfg, swept, c.key));
    }
  }

  /** The overflow loop counts what it evicts and touches no other counter. */
  lemma {:induction false} OverflowCounts(cfg: Config, st: State)
    requires cfg.maxIdle > 0
    ensures var r := EvictOverflow(cfg, st);
            r.stats == st.stats.(capacity := st.stats.capacity + |st.entries| - |r.entries|)
    decreases |st.entries|
  {
    if |st.entries| >= cfg.maxIdle {
      OverflowCounts(cfg, EvictAt(st, |st.entries| - 1));
    }
  }

  /** What one turn does, without re-entry, in the words of the counters and the calls made. */
  lemma TurnCounts(cfg: Config, st: State, stale: set<StreamId>)
    requires st.mode.Scanning?
    ensures var t := Turn(cfg, st, stale, []);
            var es, i := st.entries, FirstMatch(st.entries, st.mode.key);
            if i == |es| then t == st.(mode := Quiet(Miss), stats := st.stats.(misses := st.stats.misses + 1))
            else
              var expired := cfg.idleTimeout > 0 && st.mode.now - es[i].idleSince >= cfg.idleTimeout;
              && t.entries == es[..i] + es[i + 1..]
              && t.stats == (if expired then st.stats.(expired := st.stats.expired + 1)
                             else if es[i].stream in stale then st.stats.(stale := st.stats.stale + 1)
                             else st.stats.(hits := st.stats.hits + 1))
              && t.log == (if expired || es[i].stream in stale
                           then st.log + [Close(es[i].stream), Free(es[i].stream)] else st.log)
  {
    assert Releases(cfg, Advance(cfg, st), []) == Advance(cfg, st);
  }

  /** The releases a turn leaves for later probes. */
  function Later(cfg: Config, st: State, reentry: seq<seq<Call>>): seq<seq<Call>>
    requires st.mode.Scanning?
  {
    if Advance(cfg, st).mode.Probing? then Tail(reentry) else reentry
  }

  /** Turns that each met a match that failed: the newest there was at that moment. */
  ghost predicate Failing(cfg: Config, turns: seq<State>, stale: set<StreamId>, reentry: seq<seq<Call>>)
    decreases |turns|
  {
    && turns != [] && turns[0].mode.Scanning?
    && (|turns| > 1 ==>
          var st := turns[0];
          var i := FirstMatch(st.entries, st.mode.key);
          && i < |st.entries| && !Usable(cfg, st.entries[i], st.mode.now, stale)
          && turns[1] == Turn(cfg, st, stale, Head(reentry))
          && Failing(cfg, turns[1..], stale, Later(cfg, st, reentry)))
  }

  /** A turn removes the match, and besides it only what the releases it lets in evict. */
  lemma TurnShape(cfg: Config, st: State, stale: set<StreamId>, reentry: seq<seq<Call>>)
    returns (news: seq<Entry>, olds: seq<Entry>)
    requires st.mode.Scanning? && FirstMatch(st.entries, st.mode.key) < |st.entries|
    ensures Grown(news, olds, Turn(cfg, st, stale, Head(reentry)).entries,
                  Without(st.entries, FirstMatch(st.entries, st.mode.key)),
                  if Advance(cfg, st).mode.Probing? then Head(reentry) else [])
  {
    var next := Advance(cfg, st);
    SubSelf(next.entries);
    news, olds := [], next.entries;
    if next.mode.Probing? {
      news, olds := ReleasesShape(cfg, next, Head(reentry));
    }
  }

  lemma LaterCalls(cfg: Config, st: State, reentry: seq<seq<Call>>)
    requires st.mode.Scanning?
    ensures Flat(reentry) ==
      (if Advance(cfg, st).mode.Probing? then Head(reentry) else []) + Flat(Later(cfg, st, reentry))
  {
    assert [] + Flat(reentry) == Flat(reentry);
  }

  /** The last turn: the newest match of the moment is usable and handed out, or there is none. */
  predicate Decides(cfg: Config, last: State, mode: Mode, stale: set<StreamId>, r: State)
    requires mode.Scanning?
  {
    var i := FirstMatch(last.entries, mode.key);
    && last.mode == mode
    && (i < |last.entries| ==>
          Usable(cfg, last.entries[i], mode.now, stale) && r.mode == Quiet(Hit(last.entries[i].stream)))
    && (i == |last.entries| ==> r.mode == Quiet(Miss) && r.entries == last.entries)
  }

  lemma OneMoreTurn(cfg: Config, st: State, later: seq<State>, stale: set<StreamId>, reentry: seq<seq<Call>>)
    requires st.mode.Scanning?
    requires var i := FirstMatch(st.entries, st.mode.key);
             i < |st.entries| && !Usable(cfg, st.entries[i], st.mode.now, stale)
    requires later != [] && later[0] == Turn(cfg, st, stale, Head(reentry))
    requires Failing(cfg, later, stale, Later(cfg, st, reentry))
    ensures Failing(cfg, [st] + later, stale, reentry)
  {
    assert ([st] + later)[1..] == later;
  }

  lemma ScanDecides(cfg: Config, st: State, stale: set<StreamId>, reentry: seq<seq<Call>>)
    requires st.mode.Scanning?
    requires var i := FirstMatch(st.entries, st.mode.key);
             i < |st.entries| ==> Usable(cfg, st.entries[i], st.mode.now, stale)
    ensures Decides(cfg, st, st.mode, stale, Scan(cfg, st, stale, reentry))
  {
    ScanTurns(cfg, st, stale, reentry);
    if FirstMatch(st.entries, st.mode.key) < |st.entries| {
      TurnMakesProgress(cfg, st, stale, Head(reentry));
    }
  }

  /** What is handed out, releases re-entering from the probes included. The acquisition is a series
      of turns, each on the newest match of that moment, which failed; then either the newest match
      of the moment is usable and is what is handed out, or there is no match left, and none is in
      the final list. */
  lemma {:induction false} AcquireAmidReleases(cfg: Config, st: State, stale: set<StreamId>, reentry: seq<seq<Call>>)
    returns (turns: seq<State>)
    requires st.mode.Scanning?
    ensures Failing(cfg, turns, stale, reentry) && turns[0] == st
    ensures Decides(cfg, turns[|turns| - 1], st.mode, stale, Scan(cfg, st, stale, reentry))
    decreases |st.entries| + Pending(reentry)
  {
    var i := FirstMatch(st.entries, st.mode.key);
    if i < |st.entries| && !Usable(cfg, st.entries[i], st.mode.now, stale) {
      ScanTurns(cfg, st, stale, reentry);
      TurnMakesProgress(cfg, st, stale, Head(reentry));
      var later := AcquireAmidReleases(cfg, Turn(cfg, st, stale, Head(reentry)), stale, Later(cfg, st, reentry));
      OneMoreTurn(cfg, st, later, stale, reentry);
      turns := [st] + later;
      assert turns[|turns| - 1] == later[|later| - 1];
    } else {
      turns := [st];
      ScanDecides(cfg, st, stale, reentry);
    }
  }

  /** What stays: all that was in the list and still is keeps its order, and all that is new was
      brought by a re-entered release; a turn removes nothing but its match and what those
      releases evict. */
  lemma {:induction false} SurvivorsKeepOrder(cfg: Config, st: State, stale: set<StreamId>, reentry: seq<seq<Call>>)
    returns (news: seq<Entry>, olds: seq<Entry>)
    requires st.mode.Scanning?
    ensures Grown(news, olds, Scan(cfg, st, stale, reentry).entries, st.entries, Flat(reentry))
    decreases |st.entries| + Pending(reentry), 0
  {
    var i := FirstMatch(st.entries, st.mode.key);
    SubSelf(st.entries);
    news, olds := [], st.entries;
    if i < |st.entries| {
      ScanTurns(cfg, st, stale, reentry);
      TurnMakesProgress(cfg, st, stale, Head(reentry));
      LaterCalls(cfg, st, reentry);
      var next, rest := Turn(cfg, st, stale, Head(reentry)), Later(cfg, st, reentry);
      var n1, o1 := TurnShape(cfg, st, stale, reentry);
      WithoutIsSub(st.entries, i);
      SubTrans(o1, Without(st.entries, i), st.entries);
      var n2, o2 := AfterTurn(cfg, next, stale, rest);
      news, olds := GrownTwice(n1, o1, n2, o2, st.entries, next.entries, Scan(cfg, st, stale, reentry).entries,
                               if Advance(cfg, st).mode.Probing? then Head(reentry) else [], Flat(rest));
    }
  }

  lemma {:induction false} AfterTurn(cfg: Config, st: State, stale: set<StreamId>, reentry: seq<seq<Call>>)
    returns (news: seq<Entry>, olds: seq<Entry>)
    requires !st.mode.Probing?
    ensures Grown(news, olds, Scan(cfg, st, stale, reentry).entries, st.entries, Flat(reentry))
    decreases |st.entries| + Pending(reentry), 1
  {
    if st.mode.Scanning? {
      news, olds := SurvivorsKeepOrder(cfg, st, stale, reentry);
    } else {
      SubSelf(st.entries);
      news, olds := [], st.entries;
    }
  }

  // ---- provenance: whose connection was it ----

  ghost predicate Backed(w: World, e: Entry)
  {
    exists c :: c in w.calls && c.stream == e.stream && c.key == e.key && c.reuse && !c.readable
  }

  ghost predicate Traced(w: World)
  {
    && (forall i :: 0 <= i < |w.pool.entries| ==> Backed(w, w.pool.entries[i]))
    && (w.pool.mode.Probing? ==> Backed(w, w.pool.mode.entry) && KeyEq(w.pool.mode.entry.key, w.pool.mode.key))
  }

  lemma {:induction false} OverflowKeepsEntries(cfg: Config, st: State)
    requires cfg.maxIdle > 0
    ensures forall e :: e in EvictOverflow(cfg, st).entries ==> e in st.entries
    decreases |st.entries|
  {
    if |st.entries| >= cfg.maxIdle {
      OverflowKeepsEntries(cfg, EvictAt(st, |st.entries| - 1));
    }
  }

  lemma ReleaseAddsOnlyItself(cfg: Config, st: State, c: Call)
    ensures forall e :: e in Release(cfg, st, c).entries ==>
              e in st.entries || (e == Entry(c.key, c.stream, c.now) && c.reuse && !c.readable)
  {
    var swept := CheckFork(st, c.forked);
    if cfg.maxIdle > 0 {
      OverflowKeepsEntries(cfg, EvictHost(swept, c.key));
      OverflowKeepsEntries(cfg, swept);
    }
  }

  lemma TracedStep(cfg: Config, w: World, a: Action)
    requires Traced(w) && Legal(w, a)
    ensures Traced(Step(cfg, w, a))
  {
    var w' := Step(cfg, w, a);
    assert forall e :: Backed(w, e) ==> Backed(w', e);
    if a.DoAdvance? {
      FirstMatchIsNewest(w.pool.entries, w.pool.mode.key);
    }
    if a.DoRelease? {
      var c := a.call;
      assert c in w'.calls;
      assert c.reuse && !c.readable ==> Backed(w', Entry(c.key, c.stream, c.now));
      ReleaseAddsOnlyItself(cfg, w.pool, c);
      forall i | 0 <= i < |w'.pool.entries|
        ensures Backed(w', w'.pool.entries[i])
      {
        assert w'.pool.entries[i] in w'.pool.entries;
      }
    }
  }

  lemma {:induction false} TracedRun(cfg: Config, w: World, acts: seq<Action>)
    requires Traced(w) && LegalRun(cfg, w, acts)
    ensures Traced(Run(cfg, w, acts))
    decreases |acts|
  {
    if acts != [] {
      TracedStep(cfg, w, acts[0]);
      TracedRun(cfg, Step(cfg, w, acts[0]), acts[1..]);
    }
  }

  /** Any connection the pool hands out, after any run, was released as reusable, with nothing left
      unread on it, under an equal key; when both keys were built by the engine, the two requests
      agree on origin, trust and full proxy identity. */
  lemma AcquiredWasReleasedAlike(cfg: Config, acts: seq<Action>,
                                 https: bool, host: string, port: nat, o: Options, px: Proxy)
    requires LegalRun(cfg, Init(), acts)
    requires var m := Run(cfg, Init(), acts).pool.mode;
             m.Probing? && m.key == EngineKey(https, host, port, o, px) && PlainPins(Pins(o))
    ensures var w := Run(cfg, Init(), acts);
            exists c :: && c in w.calls && c.stream == w.pool.mode.entry.stream && c.reuse && !c.readable
                        && KeyEq(c.key, w.pool.mode.key)
                        && forall https2, host2, port2, o2, px2 ::
                             c.key == EngineKey(https2, host2, port2, o2, px2) && PlainPins(Pins(o2))
                             ==> SameIdentity(https2, host2, port2, o2, px2, https, host, port, o, px)
  {
    TracedRun(cfg, Init(), acts);
    var w := Run(cfg, Init(), acts);
    var c :| && c in w.calls && c.stream == w.pool.mode.entry.stream && c.key == w.pool.mode.entry.key
             && c.reuse && !c.readable;
    forall https2, host2, port2, o2, px2
      | c.key == EngineKey(https2, host2, port2, o2, px2) && PlainPins(Pins(o2))
      ensures SameIdentity(https2, host2, port2, o2, px2, https, host, port, o, px)
    {
      ConfiguredKeyDecides(https2, host2, port2, o2, px2, https, host, port, o, px);
    }
  }
}
