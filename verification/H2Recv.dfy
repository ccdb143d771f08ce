/** HTTP/2 receive credit (section 5.2 of RFC 9113). DATA accepted from the peer takes connection
    window until the driver grants it back; the driver does so as bytes leave its buffer. nghttp2
    and the caller may interleave the actions below in any legal order. */
module H2Recv {

  const DATA_MAX: nat := 1024 * 1024

  /** `held` is the length of the driver's DATA buffer, `accepted` every DATA byte put into it,
      `granted` the connection window given back and `onStream` the part of it that was given
      back on the stream's window too. */
  datatype State = State(open: bool, closed: bool, cancelled: bool, failed: bool,
                         held: nat, accepted: nat, granted: nat, onStream: nat)

  datatype Action =
    | Begin                                // a new request on the connection
    | OnData(n: nat, memory: bool)
    | OnClose
    | Deliver(consumes: bool)              // hand the buffer to the pipe, whatever it says
    | Cancel(flushed: bool)

  function Init(): State
  {
    State(false, false, false, false, 0, 0, 0, 0)
  }

  predicate Legal(s: State, a: Action)
  {
    match a
    case Begin => !s.failed && (!s.open || s.closed || s.cancelled)
    case OnData(_, _) => s.open && !s.closed && !s.failed
    case OnClose => s.open && !s.closed
    case Deliver(_) => s.open && !s.failed
    case Cancel(_) => true
  }

  function Step(s: State, a: Action): State
    requires Legal(s, a)
  {
    match a
    // everything of the last stream is forgotten, bytes still held included
    case Begin => s.(open := true, closed := false, cancelled := false, held := 0)
    case OnData(n, memory) =>
      if memory && s.held + n <= DATA_MAX then s.(held := s.held + n, accepted := s.accepted + n)
      else s.(failed := true)
    case OnClose => s.(closed := true)
    // the window goes back whatever the pipe will say: on both levels, or on the connection's
    // alone when there is no stream to consume for
    case Deliver(consumes) =>
      if s.held == 0 then s
      else if s.closed || !consumes then Grant(s) else Grant(s).(onStream := s.onStream + s.held)
    case Cancel(flushed) =>
      if s.closed || !s.open || s.failed then s
      else
        var t := if s.held > 0 then Grant(s) else s;
        if flushed then t.(cancelled := true) else t.(failed := true)
  }

  function Grant(s: State): State
  {
    s.(granted := s.granted + s.held, held := 0)
  }

  predicate LegalRun(s: State, acts: seq<Action>)
    decreases |acts|
  {
    acts == [] || (Legal(s, acts[0]) && LegalRun(Step(s, acts[0]), acts[1..]))
  }

  function Run(s: State, acts: seq<Action>): State
    requires LegalRun(s, acts)
    decreases |acts|
  {
    if acts == [] then s else Run(Step(s, acts[0]), acts[1..])
  }

  /** Every request finds the buffer of the one before it empty. */
  predicate Drained(s: State, acts: seq<Action>)
    requires LegalRun(s, acts)
    decreases |acts|
  {
    acts == [] || ((acts[0].Begin? ==> s.held == 0) && Drained(Step(s, acts[0]), acts[1..]))
  }

  /** Window out of circulation for good. */
  function Missing(s: State): int
  {
    s.accepted - s.granted - s.held
  }

  lemma {:induction false} MissingGrows(s: State, acts: seq<Action>)
    requires LegalRun(s, acts)
    ensures Missing(s) <= Missing(Run(s, acts))
    ensures Missing(s) == Missing(Run(s, acts)) <==> Drained(s, acts)
    ensures s.onStream <= s.granted ==> Run(s, acts).onStream <= Run(s, acts).granted
    decreases |acts|
  {
    if acts != [] {
      MissingGrows(Step(s, acts[0]), acts[1..]);
    }
  }

  /** From any state in balance, such as a fresh connection: no byte is credited twice on any run,
      and the credit is exactly conserved if and only if each request found the previous stream's
      buffer drained. */
  lemma CreditIsConservedIff(s0: State, acts: seq<Action>)
    requires s0.granted + s0.held == s0.accepted && s0.onStream <= s0.granted && LegalRun(s0, acts)
    ensures var s := Run(s0, acts);
            && s.onStream <= s.granted && s.granted + s.held <= s.accepted
            && (s.granted + s.held == s.accepted <==> Drained(s0, acts))
  {
    MissingGrows(s0, acts);
  }

  /** DATA the peer has sent in a run. */
  function Total(acts: seq<Action>): nat
  {
    if acts == [] then 0 else (if acts[0].OnData? then acts[0].n else 0) + Total(acts[1..])
  }

  /** A connection that has not failed has accepted every byte sent to it, and never holds more than
      its buffer. */
  lemma {:induction false} AllIsAccepted(s0: State, acts: seq<Action>)
    requires s0.held <= DATA_MAX && LegalRun(s0, acts)
    ensures var s := Run(s0, acts);
            && s.held <= DATA_MAX && (s0.failed ==> s.failed)
            && (!s.failed ==> s.accepted == s0.accepted + Total(acts))
    decreases |acts|
  {
    if acts != [] {
      AllIsAccepted(Step(s0, acts[0]), acts[1..]);
    }
  }

  /** What makes a connection fail: DATA that memory or the buffer of a mebibyte has no room for, or a
      reset that did not go out. */
  lemma FailsForCause(s: State, a: Action)
    requires Legal(s, a) && !s.failed
    ensures Step(s, a).failed <==>
            || (a.OnData? && (!a.memory || s.held + a.n > 1024 * 1024))
            || (a.Cancel? && s.open && !s.closed && !a.flushed)
  {
  }

  /** Handing the buffer over empties it and gives back the window of all it held, on the stream too
      while that is open; so does cancelling an open stream. Once each request has found the buffer
      empty, all window is then in circulation: the peer may send as much again as it has sent. */
  lemma WindowComesBack(acts: seq<Action>, a: Action)
    requires LegalRun(Init(), acts) && Legal(Run(Init(), acts), a)
    requires a.Deliver? || (a.Cancel? && !Run(Init(), acts).closed && Run(Init(), acts).open)
    ensures var s := Run(Init(), acts);
            var t := Step(s, a);
            && t.accepted == s.accepted
            && (!s.failed ==> t.held == 0 && t.granted == s.granted + s.held)
            && (a.Deliver? ==> t.onStream == s.onStream + (if a.consumes && !s.closed then s.held else 0))
            && (!s.failed && Drained(Init(), acts) ==> t.granted == Total(acts))
  {
    CreditIsConservedIff(Init(), acts);
    AllIsAccepted(Init(), acts);
  }

  /** The case the condition excludes: the server ends the stream with DATA still buffered, the
      caller aborts, which does nothing on a closed stream, and the connection is used again. */
  lemma AbortAfterCloseLosesWindow() returns (acts: seq<Action>)
    ensures LegalRun(Init(), acts) && !Drained(Init(), acts)
    ensures var s := Run(Init(), acts); s.accepted == 5 && s.granted == 0 && s.held == 0
  {
    var s1 := Step(Init(), Begin);
    var s2 := Step(s1, OnData(5, true));
    var s3 := Step(s2, OnClose);
    assert Step(s3, Cancel(true)) == s3;
    acts := Prepend(s3, Begin, []);
    acts := Prepend(s3, Cancel(true), acts);
    acts := Prepend(s2, OnClose, acts);
    acts := Prepend(s1, OnData(5, true), acts);
    acts := Prepend(Init(), Begin, acts);
  }

  lemma Prepend(s: State, a: Action, tail: seq<Action>) returns (acts: seq<Action>)
    requires Legal(s, a) && LegalRun(Step(s, a), tail)
    ensures LegalRun(s, acts) && Run(s, acts) == Run(Step(s, a), tail)
    ensures Drained(s, acts) <==> (a.Begin? ==> s.held == 0) && Drained(Step(s, a), tail)
  {
    acts := [a] + tail;
    assert acts[1..] == tail;
  }
}
