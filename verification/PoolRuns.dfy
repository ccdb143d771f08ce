/** Ownership, conservation and capacity over every run of the pool. A run interleaves the
    caller's operations with the steps of an acquisition, so releases made while an entry is
    under probe are ordinary actions, and the invariants hold in the states they see. */
module PoolRuns {
  import opened PoolKey
  import opened PoolSpec

  // ---- who owns what: occurrences of one stream ----

  function Idle(es: seq<Entry>, s: StreamId): nat
  {
    if es == [] then 0 else (if es[0].stream == s then 1 else 0) + Idle(es[1..], s)
  }

  function Freed(log: seq<Effect>, s: StreamId): nat
  {
    if log == [] then 0 else (if log[0] == Free(s) then 1 else 0) + Freed(log[1..], s)
  }

  function Probed(m: Mode, s: StreamId): nat
  {
    if m.Probing? && m.entry.stream == s then 1 else 0
  }

  /** How often the pool answers for a stream: idle, under probe, or destroyed. */
  function Mass(st: State, s: StreamId): nat
  {
    Idle(st.entries, s) + Probed(st.mode, s) + Freed(st.log, s)
  }

  lemma {:induction false} IdleConcat(a: seq<Entry>, b: seq<Entry>, s: StreamId)
    ensures Idle(a + b, s) == Idle(a, s) + Idle(b, s)
  {
    if a == [] {
      assert a + b == b;
    } else {
      IdleConcat(a[1..], b, s);
      assert (a + b)[1..] == a[1..] + b;
    }
  }

  lemma {:induction false} FreedConcat(a: seq<Effect>, b: seq<Effect>, s: StreamId)
    ensures Freed(a + b, s) == Freed(a, s) + Freed(b, s)
  {
    if a == [] {
      assert a + b == b;
    } else {
      FreedConcat(a[1..], b, s);
      assert (a + b)[1..] == a[1..] + b;
    }
  }

  function One(t: StreamId, s: StreamId): nat
  {
    if t == s then 1 else 0
  }

  lemma IdleWithout(es: seq<Entry>, i: nat, s: StreamId)
    requires i < |es|
    ensures Idle(es, s) == Idle(Without(es, i), s) + One(es[i].stream, s)
  {
    IdleConcat(es[..i], es[i..], s);
    assert es == es[..i] + es[i..];
    IdleConcat(es[..i], es[i + 1..], s);
    assert es[i..][1..] == es[i + 1..];
  }

  lemma FreedSingle(e: Effect, s: StreamId)
    ensures Freed([e], s) == if e.Free? then One(e.stream, s) else 0
  {
    var one := [e];
    assert one[1..] == [];
  }

  lemma FreedCloseAndFree(log: seq<Effect>, t: StreamId, s: StreamId)
    ensures Freed(log + CloseAndFree(t), s) == Freed(log, s) + One(t, s)
  {
    FreedConcat(log + [Close(t)], [Free(t)], s);
    FreedConcat(log, [Close(t)], s);
    FreedSingle(Close(t), s);
    FreedSingle(Free(t), s);
    assert log + CloseAndFree(t) == log + [Close(t)] + [Free(t)];
  }

  lemma {:induction false} FreedAll(es: seq<Entry>, s: StreamId)
    ensures Freed(FreeAll(es), s) == Idle(es, s)
    ensures Freed(CloseAll(es), s) == Idle(es, s)
  {
    if es != [] {
      FreedAll(es[1..], s);
      var t := es[0].stream;
      FreedConcat([Free(t)], FreeAll(es[1..]), s);
      FreedSingle(Free(t), s);
      FreedConcat(CloseAndFree(t), CloseAll(es[1..]), s);
      FreedCloseAndFree([], t, s);
      assert [] + CloseAndFree(t) == CloseAndFree(t);
    }
  }

  // ---- no operation creates, loses or duplicates a stream ----

  lemma MassOfSweep(st: State, forked: bool, s: StreamId)
    ensures Mass(CheckFork(st, forked), s) == Mass(st, s)
    ensures Mass(Clear(st), s) == Mass(st, s)
  {
    FreedAll(st.entries, s);
    FreedConcat(st.log, FreeAll(st.entries), s);
    FreedConcat(st.log, CloseAll(st.entries), s);
  }

  lemma MassOfEvictAt(st: State, i: nat, s: StreamId)
    requires i < |st.entries|
    ensures Mass(EvictAt(st, i), s) == Mass(st, s)
  {
    IdleWithout(st.entries, i, s);
    FreedCloseAndFree(st.log, st.entries[i].stream, s);
  }

  lemma {:induction false} MassOfEvictOverflow(cfg: Config, st: State, s: StreamId)
    requires cfg.maxIdle > 0
    ensures Mass(EvictOverflow(cfg, st), s) == Mass(st, s)
    decreases |st.entries|
  {
    if |st.entries| >= cfg.maxIdle {
      MassOfEvictAt(st, |st.entries| - 1, s);
      MassOfEvictOverflow(cfg, EvictAt(st, |st.entries| - 1), s);
    }
  }

  lemma MassOfMakeRoom(cfg: Config, st: State, k: Key, s: StreamId)
    requires cfg.maxIdle > 0
    ensures Mass(MakeRoom(cfg, st, k), s) == Mass(st, s)
  {
    var i := LastOfHost(st.entries, k);
    if i < |st.entries| {
      MassOfEvictAt(st, i, s);
    }
    MassOfEvictOverflow(cfg, EvictHost(st, k), s);
    MassOfEvictOverflow(cfg, st, s);
  }

  /** A release takes ownership whatever it decides: the stream is in the pool or destroyed. */
  lemma MassOfRelease(cfg: Config, st: State, c: Call, s: StreamId)
    ensures Mass(Release(cfg, st, c), s) == Mass(st, s) + One(c.stream, s)
  {
    MassOfSweep(st, c.forked, s);
    var swept := CheckFork(st, c.forked);
    FreedCloseAndFree(swept.log, c.stream, s);
    if c.reuse && !c.readable && cfg.maxIdle > 0 && c.memory {
      MassOfMakeRoom(cfg, swept, c.key, s);
      var room := MakeRoom(cfg, swept, c.key);
      assert ([Entry(c.key, c.stream, c.now)] + room.entries)[1..] == room.entries;
    }
  }

  lemma MassOfAdvance(cfg: Config, st: State, s: StreamId)
    requires st.mode.Scanning?
    ensures Mass(Advance(cfg, st), s) == Mass(st, s)
  {
    var i := FirstMatch(st.entries, st.mode.key);
    if i < |st.entries| {
      IdleWithout(st.entries, i, s);
      FreedCloseAndFree(st.log, st.entries[i].stream, s);
    }
  }

  lemma MassOfVerdict(st: State, stale: bool, s: StreamId)
    requires st.mode.Probing?
    ensures Mass(Verdict(st, stale), s) + (if stale then 0 else One(st.mode.entry.stream, s)) == Mass(st, s)
  {
    FreedCloseAndFree(st.log, st.mode.entry.stream, s);
  }

  // ---- closed before freed, except across a fork ----

  predicate EndsSettled(log: seq<Effect>)
  {
    log == [] || log[|log| - 1].Free?
  }

  /** Frees not directly preceded by the close of the same stream. */
  function Abrupt(log: seq<Effect>): nat
  {
    if log == [] then 0
    else
      var n := |log| - 1;
      Abrupt(log[..n]) + (if log[n].Free? && !(n > 0 && log[n - 1] == Close(log[n].stream)) then 1 else 0)
  }

  lemma AbruptAppend(log: seq<Effect>, e: Effect)
    ensures Abrupt(log + [e]) ==
            Abrupt(log) + (if e.Free? && !(log != [] && log[|log| - 1] == Close(e.stream)) then 1 else 0)
  {
    assert (log + [e])[..|log|] == log;
  }

  lemma AbruptGraceful(log: seq<Effect>, s: StreamId)
    ensures EndsSettled(log + CloseAndFree(s)) && Abrupt(log + CloseAndFree(s)) == Abrupt(log)
  {
    AbruptAppend(log, Close(s));
    AbruptAppend(log + [Close(s)], Free(s));
    assert log + CloseAndFree(s) == log + [Close(s)] + [Free(s)];
  }

  lemma {:induction false} AbruptDrop(log: seq<Effect>, es: seq<Entry>)
    requires EndsSettled(log)
    ensures EndsSettled(log + FreeAll(es)) && Abrupt(log + FreeAll(es)) == Abrupt(log) + |es|
    decreases |es|
  {
    if es == [] {
      assert log + FreeAll(es) == log;
    } else {
      var l2 := log + [Free(es[0].stream)];
      AbruptAppend(log, Free(es[0].stream));
      AbruptDrop(l2, es[1..]);
      FreeAllStep(log, es);
    }
  }

  lemma {:induction false} AbruptCloseAll(log: seq<Effect>, es: seq<Entry>)
    requires EndsSettled(log)
    ensures EndsSettled(log + CloseAll(es)) && Abrupt(log + CloseAll(es)) == Abrupt(log)
    decreases |es|
  {
    if es == [] {
      assert log + CloseAll(es) == log;
    } else {
      var l2 := log + CloseAndFree(es[0].stream);
      AbruptGraceful(log, es[0].stream);
      AbruptCloseAll(l2, es[1..]);
      CloseAllStep(log, es);
    }
  }

  predicate Orderly(st: State)
  {
    EndsSettled(st.log) && Abrupt(st.log) == st.stats.fork
  }

  lemma {:induction false} OrderlyEvictOverflow(cfg: Config, st: State)
    requires cfg.maxIdle > 0 && Orderly(st)
    ensures Orderly(EvictOverflow(cfg, st))
    decreases |st.entries|
  {
    if |st.entries| >= cfg.maxIdle {
      AbruptGraceful(st.log, st.entries[|st.entries| - 1].stream);
      OrderlyEvictOverflow(cfg, EvictAt(st, |st.entries| - 1));
    }
  }

  lemma OrderlyRelease(cfg: Config, st: State, c: Call)
    requires Orderly(st)
    ensures Orderly(CheckFork(st, c.forked)) && Orderly(Release(cfg, st, c))
  {
    AbruptDrop(st.log, st.entries);
    var swept := CheckFork(st, c.forked);
    AbruptGraceful(swept.log, c.stream);
    if c.reuse && !c.readable && cfg.maxIdle > 0 && c.memory {
      var i := LastOfHost(swept.entries, c.key);
      if i < |swept.entries| {
        AbruptGraceful(swept.log, swept.entries[i].stream);
      }
      OrderlyEvictOverflow(cfg, EvictHost(swept, c.key));
      OrderlyEvictOverflow(cfg, swept);
    }
  }

  // ---- capacity and order ----

  ghost predicate Capped(cfg: Config, es: seq<Entry>)
  {
    && |es| <= cfg.maxIdle
    && (cfg.maxPerHost > 0 ==> forall k :: CountHost(es, k) <= cfg.maxPerHost)
  }

  ghost predicate NewestFirst(es: seq<Entry>, clock: Millis)
  {
    && (forall i, j :: 0 <= i < j < |es| ==> es[i].idleSince >= es[j].idleSince)
    && (forall i :: 0 <= i < |es| ==> es[i].idleSince <= clock)
  }

  lemma {:induction false} CountConcat(a: seq<Entry>, b: seq<Entry>, k: Key)
    ensures CountHost(a + b, k) == CountHost(a, k) + CountHost(b, k)
  {
    if a == [] {
      assert a + b == b;
    } else {
      CountConcat(a[1..], b, k);
      assert (a + b)[1..] == a[1..] + b;
    }
  }

  lemma CountWithout(es: seq<Entry>, i: nat, k: Key)
    requires i < |es|
    ensures CountHost(es, k) == CountHost(Without(es, i), k) + (if SameHost(es[i].key, k) then 1 else 0)
  {
    CountConcat(es[..i], es[i..], k);
    assert es == es[..i] + es[i..];
    CountConcat(es[..i], es[i + 1..], k);
    assert es[i..][1..] == es[i + 1..];
  }

  lemma {:induction false} CountPositive(es: seq<Entry>, k: Key)
    ensures CountHost(es, k) > 0 ==> exists i :: 0 <= i < |es| && SameHost(es[i].key, k)
  {
    if es != [] && CountHost(es, k) > 0 {
      if SameHost(es[0].key, k) {
      } else {
        CountPositive(es[1..], k);
        var i :| 0 <= i < |es[1..]| && SameHost(es[1..][i].key, k);
        assert SameHost(es[i + 1].key, k);
      }
    }
  }

  lemma {:induction false} CountCongruent(es: seq<Entry>, k: Key, l: Key)
    requires SameHost(k, l)
    ensures CountHost(es, k) == CountHost(es, l)
  {
    if es != [] {
      CountCongruent(es[1..], k, l);
      KeyEqIsCanonicalEquality(es[0].key, k);
      KeyEqIsCanonicalEquality(es[0].key, l);
      KeyEqIsCanonicalEquality(k, l);
    }
  }

  lemma CappedWithout(cfg: Config, es: seq<Entry>, i: nat, clock: Millis)
    requires i < |es| && Capped(cfg, es) && NewestFirst(es, clock)
    ensures Capped(cfg, Without(es, i)) && NewestFirst(Without(es, i), clock)
  {
    forall k
      ensures CountHost(Without(es, i), k) <= CountHost(es, k)
    {
      CountWithout(es, i, k);
    }
    var r := Without(es, i);
    forall j | 0 <= j < |r|
      ensures r[j] == es[if j < i then j else j + 1]
    {
    }
  }

  /** Under the cap the overflow loop evicts at most once, and always finds its victim. */
  lemma OverflowEvictsOnce(cfg: Config, st: State)
    requires cfg.maxIdle > 0 && |st.entries| <= cfg.maxIdle
    ensures EvictOverflow(cfg, st) ==
            if |st.entries| < cfg.maxIdle then st else EvictAt(st, |st.entries| - 1)
  {
  }

  /** What making room does to a host at its cap. */
  function Trimmed(cfg: Config, st: State, k: Key): State
  {
    if cfg.maxPerHost > 0 && CountHost(st.entries, k) >= cfg.maxPerHost then EvictHost(st, k) else st
  }

  lemma CapsOfTrimmed(cfg: Config, st: State, k: Key, clock: Millis)
    requires Capped(cfg, st.entries) && NewestFirst(st.entries, clock)
    ensures Capped(cfg, Trimmed(cfg, st, k).entries) && NewestFirst(Trimmed(cfg, st, k).entries, clock)
    ensures cfg.maxPerHost > 0 ==> CountHost(Trimmed(cfg, st, k).entries, k) < cfg.maxPerHost
  {
    var i := LastOfHost(st.entries, k);
    CountPositive(st.entries, k);
    LastOfHostIsOldest(st.entries, k);
    if cfg.maxPerHost > 0 && CountHost(st.entries, k) >= cfg.maxPerHost {
      CountWithout(st.entries, i, k);
      CappedWithout(cfg, st.entries, i, clock);
    }
  }

  lemma CapsOfMakeRoom(cfg: Config, st: State, k: Key, clock: Millis)
    requires cfg.maxIdle > 0 && Capped(cfg, st.entries) && NewestFirst(st.entries, clock)
    ensures Capped(cfg, MakeRoom(cfg, st, k).entries) && NewestFirst(MakeRoom(cfg, st, k).entries, clock)
    ensures cfg.maxPerHost > 0 ==> CountHost(MakeRoom(cfg, st, k).entries, k) < cfg.maxPerHost
  {
    var fewer := Trimmed(cfg, st, k);
    CapsOfTrimmed(cfg, st, k, clock);
    OverflowEvictsOnce(cfg, fewer);
    if |fewer.entries| == cfg.maxIdle {
      CappedWithout(cfg, fewer.entries, |fewer.entries| - 1, clock);
      CountWithout(fewer.entries, |fewer.entries| - 1, k);
    }
  }

  lemma CapsOfRelease(cfg: Config, st: State, c: Call, clock: Millis)
    requires Capped(cfg, st.entries) && NewestFirst(st.entries, clock) && clock <= c.now
    ensures Capped(cfg, Release(cfg, st, c).entries) && NewestFirst(Release(cfg, st, c).entries, c.now)
  {
    var swept := CheckFork(st, c.forked);
    if c.reuse && !c.readable && cfg.maxIdle > 0 && c.memory {
      CapsOfMakeRoom(cfg, swept, c.key, clock);
      var room := MakeRoom(cfg, swept, c.key);
      var e := Entry(c.key, c.stream, c.now);
      forall k | cfg.maxPerHost > 0
        ensures CountHost([e] + room.entries, k) <= cfg.maxPerHost
      {
        assert ([e] + room.entries)[1..] == room.entries;
        if SameHost(c.key, k) {
          CountCongruent(room.entries, c.key, k);
        }
      }
    }
  }

  // ---- runs ----

  /** The pool and its caller: who holds which stream, and the totals the counters must add up to. */
  datatype World = World(pool: State, held: set<StreamId>, known: set<StreamId>, clock: Millis,
                         released: nat, cleared: nat, lost: nat, calls: set<Call>)

  datatype Action =
    | Open(s: StreamId)
    | DoRelease(call: Call)
    | DoBegin(key: Key, now: Millis, forked: bool)
    | DoAdvance
    | DoVerdict(stale: bool)
    | DoClear
    | DoCheckFork(forked: bool)

  function Init(): World
  {
    World(State([], Stats(0, 0, 0, 0, 0, 0, 0, 0), [], Quiet(Nothing)), {}, {}, 0, 0, 0, 0, {})
  }

  /** A caller releases only what it holds, and time does not run backwards. Anything may happen
      while an entry is under probe except another acquisition, a clear or a fork check. */
  predicate Legal(w: World, a: Action)
  {
    match a
    case Open(s) => s !in w.known
    case DoRelease(c) => c.stream in w.held && w.clock <= c.now && !w.pool.mode.Scanning?
    case DoBegin(_, now, _) => w.pool.mode.Quiet? && w.clock <= now
    case DoAdvance => w.pool.mode.Scanning?
    case DoVerdict(_) => w.pool.mode.Probing?
    case DoClear => w.pool.mode.Quiet?
    case DoCheckFork(_) => w.pool.mode.Quiet?
  }

  /** A release that ran out of memory is the one the counters do not see. */
  predicate Uncounted(cfg: Config, c: Call)
  {
    c.reuse && !c.readable && cfg.maxIdle > 0 && !c.memory
  }

  function Step(cfg: Config, w: World, a: Action): World
    requires Legal(w, a)
  {
    match a
    case Open(s) => w.(held := w.held + {s}, known := w.known + {s})
    case DoRelease(c) =>
      w.(pool := Release(cfg, w.pool, c), held := w.held - {c.stream}, clock := c.now,
         released := w.released + 1, lost := w.lost + (if Uncounted(cfg, c) then 1 else 0),
         calls := w.calls + {c})
    case DoBegin(key, now, forked) => w.(pool := Begin(w.pool, key, now, forked), clock := now)
    case DoAdvance => w.(pool := Advance(cfg, w.pool))
    case DoVerdict(stale) =>
      w.(pool := Verdict(w.pool, stale),
         held := if stale then w.held else w.held + {w.pool.mode.entry.stream})
    case DoClear => w.(pool := Clear(w.pool), cleared := w.cleared + |w.pool.entries|)
    case DoCheckFork(forked) => w.(pool := CheckFork(w.pool, forked))
  }

  predicate LegalRun(cfg: Config, w: World, acts: seq<Action>)
    decreases |acts|
  {
    acts == [] || (Legal(w, acts[0]) && LegalRun(cfg, Step(cfg, w, acts[0]), acts[1..]))
  }

  function Run(cfg: Config, w: World, acts: seq<Action>): World
    requires LegalRun(cfg, w, acts)
    decreases |acts|
  {
    if acts == [] then w else Run(cfg, Step(cfg, w, acts[0]), acts[1..])
  }

  function UnderProbe(m: Mode): nat
  {
    if m.Probing? then 1 else 0
  }

  function Tally(st: State): nat
  {
    |st.entries| + UnderProbe(st.mode) + st.stats.hits + st.stats.stale + st.stats.expired
    + st.stats.capacity + st.stats.unusable + st.stats.fork
  }

  function Member(xs: set<StreamId>, s: StreamId): nat
  {
    if s in xs then 1 else 0
  }

  /** Exactly one place each: the caller's, or the pool's three. */
  ghost predicate Owned(w: World)
  {
    forall s :: Mass(w.pool, s) + Member(w.held, s) == Member(w.known, s)
  }

  /** What every action keeps besides ownership. */
  ghost predicate Kept(cfg: Config, w: World)
  {
    && Tally(w.pool) + w.cleared + w.lost == w.released
    && Orderly(w.pool)
    && Capped(cfg, w.pool.entries)
    && NewestFirst(w.pool.entries, w.clock)
  }

  lemma {:induction false} TallyOfEvictOverflow(cfg: Config, st: State)
    requires cfg.maxIdle > 0
    ensures Tally(EvictOverflow(cfg, st)) == Tally(st)
    decreases |st.entries|
  {
    if |st.entries| >= cfg.maxIdle {
      TallyOfEvictOverflow(cfg, EvictAt(st, |st.entries| - 1));
    }
  }

  lemma TallyOfRelease(cfg: Config, st: State, c: Call)
    ensures Tally(Release(cfg, st, c)) + (if Uncounted(cfg, c) then 1 else 0) == Tally(st) + 1
  {
    var swept := CheckFork(st, c.forked);
    if c.reuse && !c.readable && cfg.maxIdle > 0 && c.memory {
      TallyOfEvictOverflow(cfg, EvictHost(swept, c.key));
      TallyOfEvictOverflow(cfg, swept);
    }
  }

  lemma KeptRelease(cfg: Config, w: World, c: Call)
    requires Kept(cfg, w) && Legal(w, DoRelease(c))
    ensures Kept(cfg, Step(cfg, w, DoRelease(c)))
  {
    TallyOfRelease(cfg, w.pool, c);
    OrderlyRelease(cfg, w.pool, c);
    CapsOfRelease(cfg, w.pool, c, w.clock);
  }

  lemma KeptSweep(cfg: Config, w: World, a: Action)
    requires Kept(cfg, w) && Legal(w, a) && (a.DoBegin? || a.DoClear? || a.DoCheckFork?)
    ensures Kept(cfg, Step(cfg, w, a))
  {
    AbruptDrop(w.pool.log, w.pool.entries);
    AbruptCloseAll(w.pool.log, w.pool.entries);
  }

  lemma KeptAdvance(cfg: Config, w: World)
    requires Kept(cfg, w) && w.pool.mode.Scanning?
    ensures Kept(cfg, Step(cfg, w, DoAdvance))
  {
    var es := w.pool.entries;
    var i := FirstMatch(es, w.pool.mode.key);
    if i < |es| {
      CappedWithout(cfg, es, i, w.clock);
      AbruptGraceful(w.pool.log, es[i].stream);
    }
  }

  lemma KeptStep(cfg: Config, w: World, a: Action)
    requires Kept(cfg, w) && Legal(w, a)
    ensures Kept(cfg, Step(cfg, w, a))
  {
    match a
    case Open(s) =>
    case DoRelease(c) => KeptRelease(cfg, w, c);
    case DoBegin(_, _, _) => KeptSweep(cfg, w, a);
    case DoAdvance => KeptAdvance(cfg, w);
    case DoVerdict(stale) => AbruptGraceful(w.pool.log, w.pool.mode.entry.stream);
    case DoClear => KeptSweep(cfg, w, a);
    case DoCheckFork(_) => KeptSweep(cfg, w, a);
  }

  lemma OwnedStep(cfg: Config, w: World, a: Action)
    requires Owned(w) && Legal(w, a)
    ensures Owned(Step(cfg, w, a))
  {
    var w' := Step(cfg, w, a);
    forall s
      ensures Mass(w'.pool, s) + Member(w'.held, s) == Member(w'.known, s)
    {
      assert Mass(w.pool, s) + Member(w.held, s) == Member(w.known, s);
      match a
      case Open(t) =>
      case DoRelease(c) => MassOfRelease(cfg, w.pool, c, s);
      case DoBegin(_, _, forked) => MassOfSweep(w.pool, forked, s);
      case DoAdvance => MassOfAdvance(cfg, w.pool, s);
      case DoVerdict(stale) => MassOfVerdict(w.pool, stale, s);
      case DoClear => MassOfSweep(w.pool, false, s);
      case DoCheckFork(forked) => MassOfSweep(w.pool, forked, s);
    }
  }

  lemma {:induction false} KeptRun(cfg: Config, w: World, acts: seq<Action>)
    requires Owned(w) && Kept(cfg, w) && LegalRun(cfg, w, acts)
    ensures Owned(Run(cfg, w, acts)) && Kept(cfg, Run(cfg, w, acts))
    decreases |acts|
  {
    if acts != [] {
      OwnedStep(cfg, w, acts[0]);
      KeptStep(cfg, w, acts[0]);
      KeptRun(cfg, Step(cfg, w, acts[0]), acts[1..]);
    }
  }

  /** The pool's main theorem. After every run from the empty pool, each stream ever opened is in
      exactly one place (with the caller, idle, under probe, destroyed), so none is destroyed
      twice; the counters account for every release; a stream is freed without being closed only
      when a fork dropped it; and both caps and the newest-first order hold. */
  lemma PoolSafety(cfg: Config, acts: seq<Action>)
    requires LegalRun(cfg, Init(), acts)
    ensures var w := Run(cfg, Init(), acts);
            && (forall s :: Member(w.held, s) + Idle(w.pool.entries, s) + Probed(w.pool.mode, s)
                            + Freed(w.pool.log, s) == if s in w.known then 1 else 0)
            && w.released == |w.pool.entries| + UnderProbe(w.pool.mode) + w.pool.stats.hits
                             + w.pool.stats.stale + w.pool.stats.expired + w.pool.stats.capacity
                             + w.pool.stats.unusable + w.pool.stats.fork + w.cleared + w.lost
            && Abrupt(w.pool.log) == w.pool.stats.fork
            && Capped(cfg, w.pool.entries)
            && NewestFirst(w.pool.entries, w.clock)
  {
    KeptRun(cfg, Init(), acts);
    var w := Run(cfg, Init(), acts);
    forall s
      ensures Member(w.held, s) + Idle(w.pool.entries, s) + Probed(w.pool.mode, s)
              + Freed(w.pool.log, s) == if s in w.known then 1 else 0
    {
      assert Mass(w.pool, s) + Member(w.held, s) == Member(w.known, s);
    }
  }
}
