/** The state the Network.framework backend shares with its completions. Completions run on a
    dispatch queue while the caller's thread reads, writes and frees the stream, so the model is a
    state machine whose actions are the mutex-held sections, and a run is any interleaving. */
module NwShared {

  import opened Base

  datatype Phase = Setup | Ready | Failed | Cancelled

  /** The connection's own reference: dropped by the cancelled event, the last one delivered. */
  datatype Conn = Absent | Live | Ending | Gone

  /** The receive buffer: bytes past `off` have not been read. */
  datatype Rx = Rx(buf: seq<Byte>, off: nat, pending: bool, eof: bool, failed: bool)
  {
    function Unread(): seq<Byte>
    {
      if off <= |buf| then buf[off..] else []
    }
  }

  datatype State = State(
    refs: int, freeDue: bool, frees: nat,
    // who may still touch the shared state
    stream: bool, conn: Conn, receives: nat, sends: nat, reports: nat, leaving: nat,
    // the protocol fields
    phase: Phase, rx: Rx, sendsPending: int, sendFailed: bool,
    // the environment: bytes delivered by the peer, bytes handed to the reader, end reported
    arrived: seq<Byte>, given: seq<Byte>, ended: bool,
    // an append has run out of memory
    dropped: bool)

  datatype Event = BecameReady | Waiting(error: bool) | BecameFailed

  datatype Action =
    | Attach                                  // the connection exists and holds a reference
    | Changed(event: Event)                   // state handler, first part of its life
    | CancelledEvent                          // state handler's last run, before its release
    | DropConn                                // that release
    | Arm                                     // keep one receive outstanding
    | Received(regions: seq<seq<Byte>>, room: nat, error: bool, complete: bool)
    | Take(n: nat)                            // read() after its wait
    | SendStart
    | Sent(error: bool)
    | ReportStart
    | Reported
    | Leave                                   // a completion's own release, after its update
    | DropStream                              // the stream is freed
    | FreeState                               // the last release frees

  function Init(): State
  {
    State(1, false, 0, true, Absent, 0, 0, 0, 0,
          Setup, Rx([], 0, false, false, false), 0, false, [], [], false, false)
  }

  /** An action needs only that its actor exists; none of these tests looks at `frees`. */
  predicate Legal(s: State, a: Action)
  {
    match a
    case Attach => s.stream && s.conn == Absent
    case Changed(_) => s.conn == Live
    case CancelledEvent => s.conn == Live
    case DropConn => s.conn == Ending
    case Arm => s.stream
    case Received(_, _, _, _) => s.receives > 0
    case Take(_) => s.stream && Woken(s)
    case SendStart => s.stream && s.phase == Ready
    case Sent(_) => s.sends > 0
    case ReportStart => s.stream && s.conn != Absent
    case Reported => s.reports > 0
    case Leave => s.leaving > 0
    case DropStream => s.stream
    case FreeState => s.freeDue
  }

  /** What read() waits for. */
  predicate Woken(s: State)
  {
    |s.rx.buf| > s.rx.off || s.rx.eof || s.rx.failed || s.phase == Failed || s.phase == Phase.Cancelled
  }

  function Release(s: State): State
  {
    s.(refs := s.refs - 1, freeDue := s.refs - 1 == 0)
  }

  function ArmReceive(s: State): State
  {
    if s.rx.pending || s.rx.eof || s.rx.failed || s.phase != Ready then s
    else s.(rx := s.rx.(pending := true), refs := s.refs + 1, receives := s.receives + 1)
  }

  /** Append one region, first reusing a buffer that has been read to its end. */
  function RxAppend(rx: Rx, data: seq<Byte>): Rx
  {
    if rx.off > 0 && rx.off == |rx.buf| then rx.(buf := data, off := 0) else rx.(buf := rx.buf + data)
  }

  /** Regions are appended until one does not fit in memory; `room` says how many do. */
  function RxAppendAll(rx: Rx, regions: seq<seq<Byte>>, room: nat): Rx
    decreases |regions|
  {
    if regions == [] then rx
    else if room == 0 then rx.(failed := true)
    else RxAppendAll(RxAppend(rx, regions[0]), regions[1..], room - 1)
  }

  /** The receive completion's update: data, then an error or the peer's close. */
  function Completed(rx: Rx, regions: seq<seq<Byte>>, room: nat, error: bool, complete: bool): Rx
  {
    var t := RxAppendAll(rx, regions, room);
    t.(failed := t.failed || error, eof := t.eof || (!error && complete), pending := false)
  }

  function Moved(s: State, k: nat): State
    requires k <= |s.rx.Unread()|
  {
    s.(given := s.given + s.rx.Unread()[..k], rx := s.rx.(off := s.rx.off + k))
  }

  function TakeBytes(s: State, n: nat): State
  {
    var have := |s.rx.Unread()|;
    if have > 0 then ArmReceive(Moved(s, if have > n then n else have))
    else if s.rx.eof then s.(ended := true)
    else s
  }

  function Step(s: State, a: Action): State
    requires Legal(s, a)
  {
    match a
    case Attach => s.(conn := Live, refs := s.refs + 1)
    case Changed(e) =>
      s.(phase := match e
                  case BecameReady => if s.phase == Setup then Ready else s.phase
                  case Waiting(error) => if error && s.phase == Setup then Failed else s.phase
                  case BecameFailed => if s.phase != Phase.Cancelled then Failed else s.phase)
    case CancelledEvent => s.(phase := Phase.Cancelled, conn := Ending)
    case DropConn => Release(s).(conn := Gone)
    case Arm => ArmReceive(s)
    case Received(regions, room, error, complete) =>
      s.(rx := Completed(s.rx, regions, room, error, complete),
         receives := s.receives - 1, leaving := s.leaving + 1, arrived := s.arrived + Flatten(regions),
         dropped := s.dropped || room < |regions|)
    case Take(n) => TakeBytes(s, n)
    case SendStart => s.(sendsPending := s.sendsPending + 1, refs := s.refs + 1, sends := s.sends + 1)
    case Sent(error) =>
      s.(sendsPending := s.sendsPending - 1, sendFailed := s.sendFailed || error,
         sends := s.sends - 1, leaving := s.leaving + 1)
    case ReportStart => s.(refs := s.refs + 1, reports := s.reports + 1)
    case Reported => s.(reports := s.reports - 1, leaving := s.leaving + 1)
    case Leave => Release(s).(leaving := s.leaving - 1)
    case DropStream => Release(s).(stream := false)
    case FreeState => s.(freeDue := false, frees := s.frees + 1)
  }

  // ---- references ----

  function Holders(s: State): nat
  {
    (if s.stream then 1 else 0) + (if s.conn == Live || s.conn == Ending then 1 else 0)
    + s.receives + s.sends + s.reports + s.leaving
  }

  /** The count is exact, one free is owed or done exactly when nobody is left, and the two
      pending counters agree with what is outstanding. */
  predicate Counted(s: State)
  {
    && s.refs == Holders(s)
    && s.frees + (if s.freeDue then 1 else 0) == (if s.refs == 0 then 1 else 0)
    && s.receives == (if s.rx.pending then 1 else 0)
    && s.sendsPending == s.sends
  }

  // ---- bytes ----

  /** Everything appended so far: what the reader has, then what waits in the buffer. */
  function Buffered(s: State): seq<Byte>
  {
    s.given + s.rx.Unread()
  }

  predicate Prefix(a: seq<Byte>, b: seq<Byte>)
  {
    |a| <= |b| && a == b[..|a|]
  }

  /** The reader sees a prefix of what arrived. Bytes are missing only after a failed append, and
      with the failure flag set no receive is outstanding, so none arrive later either. The end of the stream is
      reported only once the buffer is empty. */
  predicate InOrder(s: State)
  {
    && s.rx.off <= |s.rx.buf|
    && Prefix(Buffered(s), s.arrived)
    && (!s.dropped ==> Buffered(s) == s.arrived) && (s.dropped ==> s.rx.failed)
    && (s.rx.failed || s.rx.eof ==> !s.rx.pending)
    && (s.ended ==> s.rx.eof && s.rx.Unread() == [])
  }

  lemma RxAppendBuffers(rx: Rx, data: seq<Byte>)
    requires rx.off <= |rx.buf|
    ensures var t := RxAppend(rx, data);
            t.off <= |t.buf| && t.Unread() == rx.Unread() + data && t.eof == rx.eof && t.failed == rx.failed
  {
  }

  lemma {:induction false} RxAppendAllBuffers(rx: Rx, regions: seq<seq<Byte>>, room: nat)
    requires rx.off <= |rx.buf|
    ensures var t := RxAppendAll(rx, regions, room);
            && t.off <= |t.buf| && t.eof == rx.eof
            && t.failed == (rx.failed || room < |regions|)
            && Prefix(t.Unread(), rx.Unread() + Flatten(regions))
            && (room >= |regions| ==> t.Unread() == rx.Unread() + Flatten(regions))
    decreases |regions|
  {
    if regions == [] {
      assert rx.Unread() + Flatten(regions) == rx.Unread();
    } else if room > 0 {
      RxAppendBuffers(rx, regions[0]);
      RxAppendAllBuffers(RxAppend(rx, regions[0]), regions[1..], room - 1);
      Regroup(rx.Unread(), regions[0], Flatten(regions[1..]));
    }
  }

  /** A reference given up by one who held it. */
  lemma ReleaseCounts(s: State, a: Action)
    requires Counted(s) && Legal(s, a) && (a.DropConn? || a.Leave? || a.DropStream?)
    ensures Counted(Step(s, a))
  {
  }

  /** A reference taken, or passed on to whoever is about to leave. */
  lemma HandoverCounts(s: State, a: Action)
    requires Counted(s) && Legal(s, a)
    requires a.Attach? || a.SendStart? || a.Sent? || a.ReportStart? || a.Reported? || a.FreeState?
    ensures Counted(Step(s, a))
  {
  }

  lemma ReceivedCounts(s: State, a: Action)
    requires Counted(s) && Legal(s, a) && a.Received?
    ensures Counted(Step(s, a))
  {
  }

  lemma ArmCounts(s: State)
    requires Counted(s) && s.stream
    ensures Counted(ArmReceive(s))
  {
  }

  lemma CountedStep(s: State, a: Action)
    requires Counted(s) && InOrder(s) && Legal(s, a)
    ensures Counted(Step(s, a))
  {
    if a.DropConn? || a.Leave? || a.DropStream? {
      ReleaseCounts(s, a);
    } else if a.Received? {
      ReceivedCounts(s, a);
    } else if a.Arm? {
      ArmCounts(s);
    } else if a.Take? {
      TakeCounts(s, a.n);
    } else if a.Changed? || a.CancelledEvent? {
      assert Holders(Step(s, a)) == Holders(s);
    } else {
      HandoverCounts(s, a);
    }
  }

  lemma TakeCounts(s: State, n: nat)
    requires Counted(s) && s.stream
    ensures Counted(TakeBytes(s, n))
  {
    var have := |s.rx.Unread()|;
    if have > 0 {
      ArmCounts(Moved(s, if have > n then n else have));
    }
  }

  lemma InOrderReceived(s: State, a: Action)
    requires Counted(s) && InOrder(s) && Legal(s, a) && a.Received?
    ensures InOrder(Step(s, a))
  {
    RxAppendAllBuffers(s.rx, a.regions, a.room);
    var t := Step(s, a);
    assert s.arrived == s.given + s.rx.Unread();
    assert t.arrived == s.given + (s.rx.Unread() + Flatten(a.regions));
    PrefixAfter(s.given, t.rx.Unread(), s.rx.Unread() + Flatten(a.regions));
  }

  lemma PrefixAfter(g: seq<Byte>, x: seq<Byte>, y: seq<Byte>)
    requires Prefix(x, y)
    ensures Prefix(g + x, g + y)
  {
  }

  lemma MovedKeepsBytes(s: State, k: nat)
    requires s.rx.off <= |s.rx.buf| && k <= |s.rx.Unread()|
    ensures var t := Moved(s, k);
            && t.rx.off <= |t.rx.buf| && Buffered(t) == Buffered(s)
            && t.rx.eof == s.rx.eof && t.rx.failed == s.rx.failed && t.arrived == s.arrived
  {
    var u := s.rx.Unread();
    assert Moved(s, k).rx.Unread() == u[k..];
    assert u[..k] + u[k..] == u;
    Regroup(s.given, u[..k], u[k..]);
  }

  lemma ArmKeepsBytes(s: State)
    ensures var t := ArmReceive(s);
            && t.rx == s.rx.(pending := t.rx.pending) && t.rx.Unread() == s.rx.Unread()
            && t.given == s.given && t.arrived == s.arrived && t.ended == s.ended
  {
  }

  /** A read moves bytes from the buffer to the reader and changes nothing else about them. */
  lemma TakeKeepsBytes(s: State, n: nat)
    requires s.rx.off <= |s.rx.buf|
    ensures var t := TakeBytes(s, n);
            && t.rx.off <= |t.rx.buf| && Buffered(t) == Buffered(s)
            && t.rx.eof == s.rx.eof && t.rx.failed == s.rx.failed && t.arrived == s.arrived
            && (s.rx.Unread() == [] ==> t.rx == s.rx)
  {
    var have := |s.rx.Unread()|;
    if have > 0 {
      var k := if have > n then n else have;
      MovedKeepsBytes(s, k);
      ArmKeepsBytes(Moved(s, k));
    }
  }

  lemma InOrderStep(s: State, a: Action)
    requires Counted(s) && InOrder(s) && Legal(s, a)
    ensures InOrder(Step(s, a))
  {
    if a.Received? {
      InOrderReceived(s, a);
    } else if a.Take? {
      TakeKeepsBytes(s, a.n);
    } else {
      assert Buffered(Step(s, a)) == Buffered(s);
    }
  }

  // ---- runs ----

  predicate LegalRun(s: State, acts: seq<Action>)
    decreases |acts|
  {
    acts == [] || (Legal(s, acts[0]) && LegalRun(Step(s, acts[0]), acts[1..]))
  }

  function Run(s: State, acts: seq<Action>): State
    requires LegalRun(s, acts)
    decreases |acts|
  {
    if acts == [] then s else Run(Step(s, acts[0]), acts[1..])
  }

  lemma {:induction false} KeptRun(s: State, acts: seq<Action>)
    requires Counted(s) && InOrder(s) && LegalRun(s, acts)
    ensures Counted(Run(s, acts)) && InOrder(Run(s, acts))
    decreases |acts|
  {
    if acts != [] {
      CountedStep(s, acts[0]);
      InOrderStep(s, acts[0]);
      KeptRun(Step(s, acts[0]), acts[1..]);
    }
  }

  /** Every action but the free itself reads or writes the shared state. */
  predicate Touches(a: Action)
  {
    !a.FreeState?
  }

  /** In every interleaving the count equals the references outstanding, at most one receive is
      pending, the state is freed at most once, and only after the last holder has gone; whatever
      action the schedule picks next still finds it allocated. */
  lemma NoUseAfterFree(acts: seq<Action>, next: Action)
    requires LegalRun(Init(), acts)
    ensures var s := Run(Init(), acts);
            && s.refs == Holders(s) && s.receives <= 1 && s.frees <= 1
            && (s.frees == 1 || s.freeDue <==> Holders(s) == 0)
            && (Legal(s, next) && Touches(next) ==> s.frees == 0 && !s.freeDue)
            && (Legal(s, next) && !Touches(next) ==> s.frees == 0)
  {
    KeptRun(Init(), acts);
  }

  /** The reader always holds a prefix of what the peer sent, and an end of stream means the
      buffer was read out. */
  lemma ReadsAreInOrder(acts: seq<Action>)
    requires LegalRun(Init(), acts)
    ensures var s := Run(Init(), acts);
            && Prefix(s.given, s.arrived)
            && (!s.dropped ==> s.given + s.rx.Unread() == s.arrived)
            && (s.ended ==> s.rx.eof && s.rx.Unread() == [])
  {
    KeptRun(Init(), acts);
  }

  /** What one read does. It hands over the oldest waiting bytes, as many as fit, so it answers
      nothing to a reader with room only when none wait; then it reports the end if the peer has
      closed. It keeps a receive outstanding while more can come. */
  ghost predicate HandsOver(s: State, n: nat, t: State)
  {
    && s.rx.off <= |s.rx.buf| && t.rx.off <= |t.rx.buf|
    && var waiting := s.rx.buf[s.rx.off..];
       var k := if n < |waiting| then n else |waiting|;
    && t.given == s.given + waiting[..k] && t.rx.buf[t.rx.off..] == waiting[k..] && t.arrived == s.arrived
    && (n > 0 ==> (t.given == s.given <==> waiting == []))
    && (t.ended <==> s.ended || (waiting == [] && s.rx.eof))
    && t.receives == s.receives + (if waiting != [] && !s.rx.pending && !s.rx.eof && !s.rx.failed
                                      && s.phase == Ready then 1 else 0)
  }

  lemma TakeHandsOver(s: State, n: nat)
    requires s.rx.off <= |s.rx.buf|
    ensures HandsOver(s, n, TakeBytes(s, n))
  {
    var waiting := s.rx.Unread();
    if waiting != [] {
      var k := if |waiting| > n then n else |waiting|;
      MovedHandsOver(s, k);
      ArmHandsOver(Moved(s, k));
      assert TakeBytes(s, n) == ArmReceive(Moved(s, k));
    }
  }

  lemma StepHandsOver(s: State, n: nat)
    requires InOrder(s) && Legal(s, Take(n))
    ensures HandsOver(s, n, Step(s, Take(n)))
  {
    assert Step(s, Take(n)) == TakeBytes(s, n);
    TakeHandsOver(s, n);
  }

  lemma MovedHandsOver(s: State, k: nat)
    requires s.rx.off <= |s.rx.buf| && k <= |s.rx.Unread()|
    ensures var t := Moved(s, k);
            && s.rx.off <= |s.rx.buf| && t.rx.off <= |t.rx.buf|
            && var waiting := s.rx.buf[s.rx.off..];
            && t.given == s.given + waiting[..k] && t.rx.buf[t.rx.off..] == waiting[k..]
            && |t.given| == |s.given| + k && t.arrived == s.arrived && t.ended == s.ended
            && t.receives == s.receives && t.phase == s.phase
            && t.rx == s.rx.(off := t.rx.off)
  {
  }

  lemma ArmHandsOver(s: State)
    ensures var t := ArmReceive(s);
            && t.rx.buf == s.rx.buf && t.rx.off == s.rx.off && t.given == s.given && t.arrived == s.arrived
            && t.ended == s.ended
            && t.receives == s.receives + (if !s.rx.pending && !s.rx.eof && !s.rx.failed
                                              && s.phase == Ready then 1 else 0)
  {
  }

  /** At any moment of any run a read that may proceed hands over what it should. */
  lemma ReadHandsOver(acts: seq<Action>, n: nat)
    requires LegalRun(Init(), acts) && Legal(Run(Init(), acts), Take(n))
    ensures HandsOver(Run(Init(), acts), n, Step(Run(Init(), acts), Take(n)))
  {
    KeptRun(Init(), acts);
    StepHandsOver(Run(Init(), acts), n);
  }

  /** What one receive completion does, at any moment of any run: every region up to the first that
      does not fit in memory joins what waits, in order, and the flags say how it went. */
  lemma ReceiveBuffers(acts: seq<Action>, a: Action)
    requires LegalRun(Init(), acts) && Legal(Run(Init(), acts), a) && a.Received?
    ensures var s := Run(Init(), acts);
            var t := Step(s, a);
            && s.rx.off <= |s.rx.buf| && t.rx.off <= |t.rx.buf|
            && t.rx.buf[t.rx.off..]
               == s.rx.buf[s.rx.off..] + Flatten(a.regions[..Min(a.room, |a.regions|)])
            && t.given == s.given && t.arrived == s.arrived + Flatten(a.regions)
            && t.rx.failed == (a.error || a.room < |a.regions|) && t.rx.eof == (!a.error && a.complete)
            && !t.rx.pending && t.receives == 0
  {
    KeptRun(Init(), acts);
    var s := Run(Init(), acts);
    FittingBuffers(s.rx, a.regions, a.room);
    RxAppendAllBuffers(s.rx, a.regions, a.room);
  }

  lemma {:induction false} FittingBuffers(rx: Rx, regions: seq<seq<Byte>>, room: nat)
    requires rx.off <= |rx.buf|
    ensures RxAppendAll(rx, regions, room).Unread()
            == rx.Unread() + Flatten(regions[..Min(room, |regions|)])
    decreases |regions|
  {
    if regions != [] && room > 0 {
      RxAppendBuffers(rx, regions[0]);
      FittingBuffers(RxAppend(rx, regions[0]), regions[1..], room - 1);
      var fit := regions[..Min(room, |regions|)];
      assert fit[1..] == regions[1..][..Min(room - 1, |regions| - 1)];
      Regroup(rx.Unread(), regions[0], Flatten(fit[1..]));
    }
  }

  /** Setup is never re-entered, nothing leads from failure or cancellation back to ready, and
      cancelled is the last phase, whatever happens next. */
  lemma {:induction false} PhasesSettle(s: State, acts: seq<Action>)
    requires LegalRun(s, acts)
    ensures var t := Run(s, acts);
            && (s.phase != Setup ==> t.phase != Setup)
            && (s.phase == Failed ==> t.phase == Failed || t.phase == Phase.Cancelled)
            && (s.phase == Phase.Cancelled ==> t.phase == Phase.Cancelled)
    decreases |acts|
  {
    if acts != [] {
      PhasesSettle(Step(s, acts[0]), acts[1..]);
    }
  }

  // ---- the end of the stream is not always the end of the bytes ----

  /** A completion whose append runs out of memory and which also says the peer has closed sets
      both flags, and read() tests the end first: bytes that arrived are lost behind a clean end. */
  lemma EndCanHideLoss() returns (acts: seq<Action>)
    ensures LegalRun(Init(), acts)
    ensures var s := Run(Init(), acts); s.ended && s.given == [] && s.arrived == [7]
  {
    var s1 := Step(Init(), Attach);
    var s2 := Step(s1, Changed(BecameReady));
    var s3 := Step(s2, Arm);
    assert s3.receives == 1 && s3.stream && s3.rx == Rx([], 0, true, false, false);
    assert s3.arrived == s3.given == [];
    var fails := FailsAndEnds(s3, [7]);
    acts := EndsAtOnce(Step(s3, fails));
    acts := Prepend(s3, fails, acts);
    acts := Prepend(s2, Arm, acts);
    acts := Prepend(s1, Changed(BecameReady), acts);
    acts := Prepend(Init(), Attach, acts);
  }

  /** The completion in question: one region that does not fit, and the peer's close. */
  lemma FailsAndEnds(s: State, data: seq<Byte>) returns (a: Action)
    requires s.receives > 0 && s.rx.Unread() == []
    ensures Legal(s, a)
    ensures var t := Step(s, a);
            && t.arrived == s.arrived + data && t.given == s.given && t.stream == s.stream
            && t.rx.eof && t.rx.Unread() == []
  {
    a := Received([data], 0, false, true);
    assert [data][1..] == [];
    assert Flatten([data]) == data + Flatten([]);
    assert RxAppendAll(s.rx, [data], 0) == s.rx.(failed := true);
  }

  lemma EndsAtOnce(s: State) returns (acts: seq<Action>)
    requires s.stream && s.rx.eof && s.rx.Unread() == []
    ensures LegalRun(s, acts)
    ensures var t := Run(s, acts); t.ended && t.given == s.given && t.arrived == s.arrived
  {
    acts := Prepend(s, Take(1), []);
  }

  lemma Prepend(s: State, a: Action, tail: seq<Action>) returns (acts: seq<Action>)
    requires Legal(s, a) && LegalRun(Step(s, a), tail)
    ensures LegalRun(s, acts) && Run(s, acts) == Run(Step(s, a), tail)
  {
    acts := [a] + tail;
    assert acts[1..] == tail;
  }

  /** A failed append is the only way to have both flags. */
  predicate LossSeen(s: State)
  {
    s.rx.eof && s.rx.failed ==> Buffered(s) != s.arrived
  }

  /** Regions carry bytes, as dispatch data does. */
  predicate Proper(a: Action)
  {
    a.Received? ==> forall j :: 0 <= j < |a.regions| ==> a.regions[j] != []
  }

  lemma {:induction false} ShortWhenLost(rx: Rx, regions: seq<seq<Byte>>, room: nat)
    requires rx.off <= |rx.buf| && room < |regions|
    requires forall j :: 0 <= j < |regions| ==> regions[j] != []
    ensures |RxAppendAll(rx, regions, room).Unread()| < |rx.Unread()| + |Flatten(regions)|
    decreases |regions|
  {
    if room > 0 {
      ShortWhenLost(RxAppend(rx, regions[0]), regions[1..], room - 1);
    }
  }

  lemma LossSeenStep(s: State, a: Action)
    requires Counted(s) && InOrder(s) && LossSeen(s) && Legal(s, a) && Proper(a)
    ensures LossSeen(Step(s, a))
  {
    if a.Received? {
      RxAppendAllBuffers(s.rx, a.regions, a.room);
      if a.room < |a.regions| {
        ShortWhenLost(s.rx, a.regions, a.room);
      }
    } else if a.Take? {
      TakeKeepsBytes(s, a.n);
    } else {
      assert Buffered(Step(s, a)) == Buffered(s);
    }
  }

  lemma {:induction false} LossSeenRun(s: State, acts: seq<Action>)
    requires Counted(s) && InOrder(s) && LossSeen(s) && LegalRun(s, acts)
    requires forall i :: 0 <= i < |acts| ==> Proper(acts[i])
    ensures LossSeen(Run(s, acts))
    decreases |acts|
  {
    if acts != [] {
      CountedStep(s, acts[0]);
      InOrderStep(s, acts[0]);
      LossSeenStep(s, acts[0]);
      LossSeenRun(Step(s, acts[0]), acts[1..]);
    }
  }

  /** Exactly when a reported end is the end of what the peer sent: when the failure flag, which
      read() does not test before the end, is clear. */
  lemma EndIsTruthfulIff(acts: seq<Action>)
    requires LegalRun(Init(), acts) && (forall i :: 0 <= i < |acts| ==> Proper(acts[i]))
    requires Run(Init(), acts).ended
    ensures var s := Run(Init(), acts); s.given == s.arrived <==> !s.rx.failed
  {
    KeptRun(Init(), acts);
    LossSeenRun(Init(), acts);
  }
}
