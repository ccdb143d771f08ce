/** The pool as the source keeps it: a newest-first linked list of heap entries, rewritten in
    place. Every method is proved to perform its operation of PoolSpec on the list's contents. */
module PoolList {
  import opened PoolKey
  import opened PoolSpec

  class Node {
    const entry: Entry
    var next: Node?

    constructor (entry: Entry)
      ensures this.entry == entry && this.next == null
    {
      this.entry, this.next := entry, null;
    }
  }

  ghost predicate Distinct(spine: seq<Node>)
  {
    forall i, j :: 0 <= i < j < |spine| ==> spine[i] != spine[j]
  }

  /** Each node's `next` is its successor in the spine; the last one ends the list. */
  ghost predicate Chained(spine: seq<Node>)
    reads spine
  {
    forall i {:trigger spine[i].next} :: 0 <= i < |spine| ==> spine[i].next == At(spine, i + 1)
  }

  ghost function At(spine: seq<Node>, i: nat): Node?
  {
    if i < |spine| then spine[i] else null
  }

  ghost function Before(spine: seq<Node>, i: nat): Node?
    requires i <= |spine|
  {
    if i == 0 then null else spine[i - 1]
  }

  /** The eviction victim: the host's oldest entry, or the pool's. */
  ghost function Oldest(es: seq<Entry>, perHost: bool, k: Key): nat
  {
    if perHost then LastOfHost(es, k) else if es == [] then 0 else |es| - 1
  }

  lemma OldestStep(es: seq<Entry>, i: nat, perHost: bool, k: Key)
    requires i < |es|
    ensures var v := Oldest(es[..i], perHost, k);
            Oldest(es[..i + 1], perHost, k) ==
            if !perHost || SameHost(es[i].key, k) then i else if v == i then i + 1 else v
  {
    assert es[..i + 1][..i] == es[..i];
  }

  lemma AtFirstMatch(es: seq<Entry>, i: nat, k: Key)
    requires i < |es| && i <= FirstMatch(es, k)
    ensures KeyEq(es[i].key, k) <==> i == FirstMatch(es, k)
  {
    FirstMatchIsNewest(es, k);
  }

  lemma CloseNext(log: seq<Effect>, es: seq<Entry>, i: nat)
    requires i < |es|
    ensures log + CloseAll(es[i..]) == log + CloseAndFree(es[i].stream) + CloseAll(es[i + 1..])
  {
    assert es[i..][1..] == es[i + 1..];
    CloseAllStep(log, es[i..]);
  }

  lemma FreeNext(log: seq<Effect>, es: seq<Entry>, i: nat)
    requires i < |es|
    ensures log + FreeAll(es[i..]) == log + [Free(es[i].stream)] + FreeAll(es[i + 1..])
  {
    assert es[i..][1..] == es[i + 1..];
    FreeAllStep(log, es[i..]);
  }

  lemma OverflowNext(cfg: Config, st: State)
    requires cfg.maxIdle > 0
    ensures EvictOverflow(cfg, st) ==
      if |st.entries| < cfg.maxIdle then st else EvictOverflow(cfg, EvictAt(st, |st.entries| - 1))
  {
  }

  class Pool {
    const cfg: Config
    var head: Node?
    var idle: int
    var stats: Stats
    var log: seq<Effect>
    ghost var entries: seq<Entry>
    ghost var spine: seq<Node>
    ghost var nodes: set<Node>
    ghost var mode: Mode
    /** Nodes whose memory has not been given back. */
    ghost var live: set<Node>

    /** Everything on the list may be read. */
    ghost predicate Valid()
      reads this, nodes
    {
      Shaped() && live <= nodes && forall i :: 0 <= i < |spine| ==> spine[i] in live
    }

    /** What is alive off the list stays so, and off it. */
    twostate predicate Spares()
      reads this
    {
      forall n :: n in old(live) && n !in old(spine) ==> n in live && n !in spine
    }

    /** `next` pointers from `head` visit exactly the spine, in order, and end; the spine holds
        the entries. */
    ghost predicate Shaped()
      reads this, nodes
    {
      && idle == |spine| == |entries|
      && head == At(spine, 0)
      && Distinct(spine)
      && (forall i :: 0 <= i < |spine| ==> spine[i] in nodes && spine[i].entry == entries[i])
      && Chained(spine)
    }

    ghost function View(): State
      reads this
    {
      State(entries, stats, log, mode)
    }

    constructor (cfg: Config)
      ensures Valid() && this.cfg == cfg
      ensures View() == State([], Stats(0, 0, 0, 0, 0, 0, 0, 0), [], Quiet(Nothing))
    {
      this.cfg := cfg;
      head, idle, log, mode := null, 0, [], Quiet(Nothing);
      entries, spine, nodes, live := [], [], {}, {};
      stats := Stats(0, 0, 0, 0, 0, 0, 0, 0);
    }

    /** Empty the list, closing as it goes. */
    method Clear()
      requires Valid()
      modifies this
      ensures Valid() && View() == PoolSpec.Clear(old(View())) && nodes == old(nodes) && Spares()
    {
      var e := head;
      ghost var i, es := 0, entries;
      while e != null
        invariant 0 <= i <= |spine| && e == At(spine, i) && Shaped() && live <= nodes
        invariant forall j :: i <= j < |spine| ==> spine[j] in live
        invariant forall n :: n in old(live) && n !in spine ==> n in live
        invariant log + CloseAll(es[i..]) == old(log) + CloseAll(es)
        decreases |spine| - i
        modifies this`log, this`live
      {
        assert e in live;
        var next := e.next;
        CloseNext(log, es, i);
        log, live := log + CloseAndFree(e.entry.stream), live - {e};
        i := i + 1;
        e := next;
      }
      assert es[i..] == [];
      head, idle, spine, entries := null, 0, [], [];
    }

    /** Drop every inherited connection without closing it: the parent owns those sockets. */
    method CheckFork(tripped: bool)
      requires Valid()
      modifies this
      ensures Valid() && View() == PoolSpec.CheckFork(old(View()), tripped) && nodes == old(nodes) && Spares()
    {
      if !tripped {
        return;
      }
      var e, dropped: nat := head, 0;
      ghost var es := entries;
      while e != null
        invariant dropped <= |spine| && e == At(spine, dropped) && Shaped() && live <= nodes
        invariant forall j :: dropped <= j < |spine| ==> spine[j] in live
        invariant forall n :: n in old(live) && n !in spine ==> n in live
        invariant log + FreeAll(es[dropped..]) == old(log) + FreeAll(es)
        decreases |spine| - dropped
        modifies this`log, this`live
      {
        assert e in live;
        var next := e.next;
        FreeNext(log, es, dropped);
        log, live := log + [Free(e.entry.stream)], live - {e};
        dropped := dropped + 1;
        e := next;
      }
      assert es[dropped..] == [];
      head, idle, spine, entries, stats :=
        null, 0, [], [], stats.(fork := stats.fork + dropped, forks := stats.forks + 1);
    }

    /** Unlink the i-th node through the link that points at it. */
    method Unlink(prev: Node?, e: Node, ghost i: nat)
      requires Valid() && i < |spine| && e == spine[i] && prev == Before(spine, i)
      modifies this, nodes
      ensures Valid() && nodes == old(nodes)
      ensures live == old(live) && e !in spine && forall n :: n in spine ==> n in old(spine)
      ensures entries == Without(old(entries), i)
      ensures stats == old(stats) && log == old(log) && mode == old(mode)
    {
      ghost var was := spine;
      if prev == null {
        head := e.next;
      } else {
        prev.next := e.next;
      }
      spine, entries := was[..i] + was[i + 1..], Without(entries, i);
      idle := idle - 1;
    }

    method CountForHost(k: Key) returns (n: nat)
      requires Valid()
      ensures n == CountHost(entries, k)
    {
      var e := head;
      n := 0;
      ghost var i := 0;
      ghost var es := entries;
      while e != null
        invariant 0 <= i <= |spine| && e == At(spine, i)
        invariant n + CountHost(es[i..], k) == CountHost(es, k)
        decreases |spine| - i
      {
        assert es[i..][1..] == es[i + 1..];
        if SameHost(e.entry.key, k) {
          n := n + 1;
        }
        e := e.next;
        i := i + 1;
      }
    }

    /** The oldest entry, of one host or of all, is the last match met on the way down the
        newest-first list; with it comes the link that points at it. */
    method FindOldest(perHost: bool, k: Key) returns (prev: Node?, victim: Node?, ghost v: nat)
      requires Valid()
      ensures v == Oldest(entries, perHost, k)
      ensures victim == At(spine, v) && (v < |spine| ==> prev == Before(spine, v))
    {
      var at: Node?, e := null, head;
      prev, victim, v := null, null, 0;
      ghost var i: nat, es := 0, entries;
      while e != null
        invariant i <= |spine| && e == At(spine, i) && at == Before(spine, i)
        invariant v == Oldest(es[..i], perHost, k)
        invariant v == i ==> victim == null
        invariant v < i ==> victim == spine[v] && prev == Before(spine, v)
        decreases |spine| - i
      {
        OldestStep(es, i, perHost, k);
        if !perHost || SameHost(e.entry.key, k) {
          prev, victim, v := at, e, i;
        } else if v == i {
          v := i + 1;
        }
        at, e, i := e, e.next, i + 1;
      }
      assert es[..i] == es;
    }

    method EvictOldest(perHost: bool, k: Key)
      requires Valid()
      modifies this, nodes
      ensures Valid() && nodes == old(nodes) && Spares()
      ensures View() == if perHost then EvictHost(old(View()), k)
                        else if old(spine) == [] then old(View())
                        else EvictAt(old(View()), |old(spine)| - 1)
    {
      var prev, victim, v := FindOldest(perHost, k);
      if victim == null {
        return;
      }
      Unlink(prev, victim, v);
      Evict(victim);
    }

    /** Close and free an entry that is off the list, to make room. */
    method Evict(e: Node)
      requires Valid() && e in live && e !in spine
      modifies this`stats, this`log, this`live
      ensures Valid() && live == old(live) - {e}
      ensures stats == old(stats).(capacity := old(stats).capacity + 1)
      ensures log == old(log) + CloseAndFree(e.entry.stream)
    {
      stats, log, live := stats.(capacity := stats.capacity + 1), log + CloseAndFree(e.entry.stream), live - {e};
    }

    /** Take ownership of a stream: pool it, or close it for whichever reason applies first. */
    method Release(c: Call)
      requires Valid()
      modifies this, nodes
      ensures Valid() && View() == PoolSpec.Release(cfg, old(View()), c)
      ensures fresh(nodes - old(nodes)) && Spares()
    {
      CheckFork(c.forked);
      if !c.reuse {
        stats := stats.(unusable := stats.unusable + 1);
        log := log + CloseAndFree(c.stream);
      } else if c.readable {
        stats := stats.(stale := stats.stale + 1);
        log := log + CloseAndFree(c.stream);
      } else if cfg.maxIdle == 0 {
        stats := stats.(capacity := stats.capacity + 1);
        log := log + CloseAndFree(c.stream);
      } else if !c.memory {
        log := log + CloseAndFree(c.stream);
      } else {
        var e := new Node(Entry(c.key, c.stream, c.now));
        MakeRoom(c.key);
        Push(e);
      }
    }

    /** The host's cap first, then the pool's; each eviction finds a victim. */
    method MakeRoom(k: Key)
      requires Valid() && cfg.maxIdle > 0
      modifies this, nodes
      ensures Valid() && nodes == old(nodes) && Spares()
      ensures View() == PoolSpec.MakeRoom(cfg, old(View()), k)
    {
      var n := CountForHost(k);
      if cfg.maxPerHost > 0 && n >= cfg.maxPerHost {
        EvictOldest(true, k);
      }
      Shrink(k);
    }

    method Shrink(k: Key)
      requires Valid() && cfg.maxIdle > 0
      modifies this, nodes
      ensures Valid() && nodes == old(nodes) && Spares()
      ensures View() == EvictOverflow(cfg, old(View()))
    {
      ghost var goal := EvictOverflow(cfg, View());
      while idle >= cfg.maxIdle
        invariant Valid() && nodes == old(nodes) && Spares()
        invariant EvictOverflow(cfg, View()) == goal
        decreases idle
      {
        ShrinkByOne(k, goal);
      }
      OverflowNext(cfg, View());
    }

    method ShrinkByOne(k: Key, ghost goal: State)
      requires Valid() && idle >= cfg.maxIdle > 0 && EvictOverflow(cfg, View()) == goal
      modifies this, nodes
      ensures Valid() && nodes == old(nodes) && Spares() && idle == old(idle) - 1
      ensures EvictOverflow(cfg, View()) == goal
    {
      OverflowNext(cfg, View());
      EvictLast(k);
    }

    method EvictLast(k: Key)
      requires Valid() && spine != []
      modifies this, nodes
      ensures Valid() && nodes == old(nodes) && Spares() && |spine| == |old(spine)| - 1
      ensures View() == EvictAt(old(View()), |old(entries)| - 1)
    {
      EvictOldest(false, k);
    }

    method Push(e: Node)
      requires Valid() && e !in nodes
      modifies this, e
      ensures Valid() && nodes == old(nodes) + {e} && Spares()
      ensures View() == old(View()).(entries := [e.entry] + old(entries))
    {
      e.next := head;
      head := e;
      spine, entries, nodes, live := [e] + spine, [e.entry] + entries, nodes + {e}, live + {e};
      idle := idle + 1;
    }

    /** What a probe may do to the pool while it runs: any number of releases. */
    method Reenter(cs: seq<Call>)
      requires Valid()
      modifies this, nodes
      ensures Valid() && View() == Releases(cfg, old(View()), cs)
      ensures fresh(nodes - old(nodes)) && Spares()
    {
      var i := 0;
      assert cs[0..] == cs;
      while i < |cs|
        invariant 0 <= i <= |cs| && Valid()
        invariant Releases(cfg, View(), cs[i..]) == Releases(cfg, old(View()), cs)
        invariant fresh(nodes - old(nodes)) && Spares()
      {
        assert cs[i..][1..] == cs[i + 1..];
        Release(cs[i]);
        i := i + 1;
      }
      assert cs[i..] == [];
    }

    /** The probe runs on an entry already off the list; then it is destroyed or handed out. */
    method Probe(e: Node, key: Key, now: Millis, stale: bool, reentered: seq<Call>)
      requires Valid() && e in live && e !in spine
      modifies this, nodes
      ensures Valid() && fresh(nodes - old(nodes))
      ensures View() == Verdict(Releases(cfg, old(View()).(mode := Probing(key, now, e.entry)), reentered), stale)
    {
      mode := Probing(key, now, e.entry);
      Reenter(reentered);
      Answer(e, key, now, stale);
    }

    /** The probe's answer. Whatever it did to the pool, the entry is still there to be read. */
    method Answer(e: Node, key: Key, now: Millis, stale: bool)
      requires Valid() && e in live && e !in spine && mode == Probing(key, now, e.entry)
      modifies this`mode, this`stats, this`log, this`live
      ensures Valid() && View() == Verdict(old(View()), stale)
    {
      if stale {
        mode, stats, log, live := Scanning(key, now), stats.(stale := stats.stale + 1),
                                  log + CloseAndFree(e.entry.stream), live - {e};
      } else {
        mode, stats, live := Quiet(Hit(e.entry.stream)), stats.(hits := stats.hits + 1), live - {e};
      }
    }

    /** One matching entry: off the list first, so that a probe that re-enters the pool does not
        meet it. */
    method Examine(prev: Node?, e: Node, ghost i: nat, key: Key, now: Millis, stale: set<StreamId>,
                   reentered: seq<Call>)
      returns (probed: bool)
      requires Valid() && i < |spine| && e == spine[i] && prev == Before(spine, i)
      requires mode == Scanning(key, now) && i == FirstMatch(entries, key)
      modifies this, nodes
      ensures Valid() && fresh(nodes - old(nodes))
      ensures probed == Advance(cfg, old(View())).mode.Probing?
      ensures View() == Turn(cfg, old(View()), stale, reentered)
    {
      Unlink(prev, e, i);
      probed := !(cfg.idleTimeout > 0 && now - e.entry.idleSince >= cfg.idleTimeout);
      if probed {
        Probe(e, key, now, e.entry.stream in stale, reentered);
      } else {
        stats, log, live := stats.(expired := stats.expired + 1), log + CloseAndFree(e.entry.stream), live - {e};
      }
    }

    /** Walk the links from the head to the newest entry with an equal key. */
    method Seek(key: Key) returns (prev: Node?, e: Node?, ghost i: nat)
      requires Valid()
      ensures i == FirstMatch(entries, key)
      ensures e == At(spine, i) && (e != null ==> prev == Before(spine, i))
    {
      prev, e, i := null, head, 0;
      while e != null
        invariant i <= |spine| && e == At(spine, i) && prev == Before(spine, i)
        invariant i <= FirstMatch(entries, key)
        decreases |spine| - i
      {
        AtFirstMatch(entries, i, key);
        if KeyEq(e.entry.key, key) {
          return;
        }
        prev, e, i := e, e.next, i + 1;
      }
    }

    /** From the head to the next match, and what comes of it; or to the end, and a miss. */
    method TakeTurn(key: Key, now: Millis, stale: set<StreamId>, reentered: seq<Call>)
      returns (found: Found, probed: bool)
      requires Valid() && mode == Scanning(key, now)
      modifies this, nodes
      ensures Valid() && fresh(nodes - old(nodes))
      ensures View() == Turn(cfg, old(View()), stale, reentered)
      ensures probed == Advance(cfg, old(View())).mode.Probing?
      ensures mode == if found == Nothing then Scanning(key, now) else Quiet(found)
      ensures found == Nothing ==>
        |entries| < |old(entries)| + (if probed then |reentered| else 0)
    {
      var prev, e, i := Seek(key);
      if e == null {
        mode := Quiet(Miss);
        stats := stats.(misses := stats.misses + 1);
        return Miss, false;
      }
      TurnMakesProgress(cfg, View(), stale, reentered);
      var s := e.entry.stream;
      probed := Examine(prev, e, i, key, now, stale, reentered);
      found := if probed && s !in stale then Hit(s) else Nothing;
    }

    /** Turn after turn, each starting at the head, whatever the last probe did to the list. */
    method ScanList(key: Key, now: Millis, stale: set<StreamId>, reentry: seq<seq<Call>>) returns (found: Found)
      requires Valid() && mode == Scanning(key, now)
      modifies this, nodes
      ensures Valid() && View() == Scan(cfg, old(View()), stale, reentry)
      ensures mode == Quiet(found)
    {
      var rest := reentry;
      found := Nothing;
      while found == Nothing
        invariant Valid() && fresh(nodes - old(nodes))
        invariant mode == if found == Nothing then Scanning(key, now) else Quiet(found)
        invariant Scan(cfg, View(), stale, rest) == Scan(cfg, old(View()), stale, reentry)
        decreases found == Nothing, |entries| + Pending(rest)
      {
        ScanTurns(cfg, View(), stale, rest);
        var probed;
        found, probed := TakeTurn(key, now, stale, Head(rest));
        if probed {
          rest := Tail(rest);
        }
      }
    }

    method Acquire(key: Key, now: Millis, forked: bool, stale: set<StreamId>, reentry: seq<seq<Call>>)
      returns (found: Found)
      requires Valid()
      modifies this, nodes
      ensures Valid() && View() == PoolSpec.Acquire(cfg, old(View()), key, now, forked, stale, reentry)
      ensures mode == Quiet(found)
    {
      CheckFork(forked);
      mode := Scanning(key, now);
      found := ScanList(key, now, stale, reentry);
    }
  }
}
