/** An HTTP/2 response body and what becomes of its connection: DATA frames are buffered as they
    arrive and handed to the pipe, until the stream closes; the session then says whether it can
    carry another request. */
module H2Body {
  import opened Base
  import opened Inflate
  import opened Body

  /** How one pump of the connection leaves the stream. */
  datatype Close = Open | Closed(outcome: Code)

  /** What one pump brings: DATA, perhaps none, and perhaps the end of the stream; or a failure of
      the connection. */
  datatype Arrival = Frames(data: seq<Byte>, close: Close) | Broken(code: Code)

  /** All the DATA of a stream, up to its close or a failure. */
  function Carried(script: seq<Arrival>): seq<Byte>
  {
    if script == [] || script[0].Broken? then []
    else if script[0].close.Closed? then script[0].data
    else script[0].data + Carried(script[1..])
  }

  /** How it ends. A script that runs out is a connection that times out. */
  function Outcome(script: seq<Arrival>): Code
  {
    if script == [] then Timeout
    else if script[0].Broken? then (if script[0].code == Ok then Io else script[0].code)
    else if script[0].close.Closed? then script[0].close.outcome
    else Outcome(script[1..])
  }

  /** DATA that leaves the stream open. */
  function InFlight(pieces: seq<seq<Byte>>): seq<Arrival>
  {
    if pieces == [] then [] else [Frames(pieces[0], Open)] + InFlight(pieces[1..])
  }

  lemma CarriedFirst(data: seq<Byte>, rest: seq<Arrival>)
    ensures Carried([Frames(data, Open)] + rest) == data + Carried(rest)
    ensures Outcome([Frames(data, Open)] + rest) == Outcome(rest)
  {
    assert ([Frames(data, Open)] + rest)[1..] == rest;
  }

  lemma {:induction false} CarriedAhead(pieces: seq<seq<Byte>>, tail: seq<Arrival>)
    ensures Carried(InFlight(pieces) + tail) == Flatten(pieces) + Carried(tail)
    ensures Outcome(InFlight(pieces) + tail) == Outcome(tail)
  {
    if pieces == [] {
      assert InFlight(pieces) + tail == tail;
    } else {
      CarriedAhead(pieces[1..], tail);
      CarriedFirst(pieces[0], InFlight(pieces[1..]) + tail);
      Regroup([Frames(pieces[0], Open)], InFlight(pieces[1..]), tail);
      Regroup(pieces[0], Flatten(pieces[1..]), Carried(tail));
    }
  }

  /** Of any stream the body is the DATA before the close and the DATA that comes with it, in order,
      and nothing behind; before a failure or an endless wait it is what came until then. */
  lemma CarriedIsAllData(pieces: seq<seq<Byte>>, last: Arrival, rest: seq<Arrival>)
    requires last.Frames? ==> last.close.Closed?
    ensures var script := InFlight(pieces) + ([last] + rest);
            && Carried(script) == Flatten(pieces) + (if last.Frames? then last.data else [])
            && Outcome(script) == (if last.Frames? then last.close.outcome
                                   else if last.code == Ok then Io else last.code)
    ensures Carried(InFlight(pieces)) == Flatten(pieces) && Outcome(InFlight(pieces)) == Timeout
  {
    CarriedAhead(pieces, [last] + rest);
    CarriedAhead(pieces, []);
    assert InFlight(pieces) + [] == InFlight(pieces) && Flatten(pieces) + [] == Flatten(pieces);
  }

  class Session {
    const goaway: bool
    /** nghttp2 would take another request. */
    const allowed: bool
    var script: seq<Arrival>
    var held: seq<Byte>
    var close: Close
    var failed: bool
    var cancelled: bool
    ghost const all: seq<Byte>
    ghost const outcome: Code
    ghost var fed: seq<Byte>

    /** What was handed over, what is held and what is to come make up the body. */
    ghost predicate Valid()
      reads this
    {
      && !failed && !cancelled
      && fed + held + (if close.Open? then Carried(script) else []) == all
      && outcome == (if close.Open? then Outcome(script) else close.outcome)
    }

    ghost predicate Passed(p: Pipe)
      reads this, p, p.sink, p.inflater
    {
      && p.Valid() && p.Lossless()
      && (p.inflater == null ==> p.sink.total == fed)
      && (p.inflater != null ==> p.inflater.inTotal == Cast(|fed|, SPAN))
    }

    constructor (script: seq<Arrival>, goaway: bool, allowed: bool)
      ensures Valid() && fed == [] && held == [] && close == Open
      ensures this.script == script && all == Carried(script) && outcome == Outcome(script)
      ensures this.goaway == goaway && this.allowed == allowed
    {
      this.script, this.goaway, this.allowed := script, goaway, allowed;
      held, close, failed, cancelled, fed := [], Open, false, false, [];
      all, outcome := Carried(script), Outcome(script);
    }

    /** May the pool have the connection back? */
    predicate Reusable()
      reads this
    {
      !failed && !goaway && (cancelled || close == Closed(Ok)) && allowed
    }

    /** Read the connection once. */
    method Pump() returns (rc: Code)
      requires Valid() && held == [] && close == Open
      modifies this`script, this`held, this`close, this`failed
      ensures rc == Ok ==> Valid() && |script| < old(|script|)
      ensures rc != Ok ==> rc == outcome && failed && fed == all
    {
      if script == [] {
        failed := true;
        assert fed + held + [] == fed;
        return Timeout;
      }
      var a := script[0];
      if a.Broken? {
        failed := true;
        assert fed + held + [] == fed;
        return if a.code == Ok then Io else a.code;
      }
      assert fed + held + a.data == fed + a.data;
      assert fed + a.data + Carried(script[1..]) == fed + (a.data + Carried(script[1..]));
      assert fed + a.data + [] == fed + a.data;
      held, close, script := a.data, a.close, script[1..];
      return Ok;
    }

    /** Hand over what is held, whatever the pipe says of it. */
    method Deliver(p: Pipe, e: Env) returns (rc: Code)
      requires Valid() && Passed(p)
      modifies this`held, this`fed, p`rawSeen, p.sink, p.sink.buffer, p.inflater
      ensures Valid() && p.Valid() && held == [] && fed == old(fed + held)
      ensures rc == Ok ==> Passed(p)
      ensures p.sink.Grew()
      ensures Calm(e) && rc != Ok ==> p.Refuses(rc, fed)
    {
      p.rawSeen := p.rawSeen + |held|;
      CastAdds(|fed|, |held|, SPAN);
      rc := p.Feed(held, e, fed);
      assert fed + held + [] == fed + held;
      fed, held := fed + held, [];
    }

    /** One step: read if there is nothing to hand over, hand over, and look for the end. */
    method Step(p: Pipe, e: Env) returns (rc: Code, done: bool)
      requires Valid() && Passed(p)
      modifies this, p`rawSeen, p.sink, p.sink.buffer, p.inflater
      ensures p.Valid() && |fed| <= |all|
      ensures rc == Ok ==> Valid() && Passed(p)
      ensures p.sink.Grew()
      ensures rc == Ok && !done ==> |script| < old(|script|) || old(held != [])
      ensures done ==> rc == Ok
      ensures rc == Ok && held == [] && done ==> close == Closed(Ok) && fed == all
      ensures rc == Ok && done && p.inflater != null ==> p.inflater.finished || p.inflater.inTotal == 0
      ensures held == [] || rc != Ok
      ensures Calm(e) && rc != Ok ==>
        || (rc == outcome && fed == all) || p.Refuses(rc, fed)
        || (rc == BodyDecode && fed == all != [] && p.inflater != null && !p.inflater.finished)
    {
      done := false;
      if held == [] && close == Open {
        rc := Pump();
        if rc != Ok {
          return;
        }
      }
      rc := Deliver(p, e);
      if rc != Ok || close == Open {
        return;
      }
      assert fed + [] + [] == fed;
      rc := close.outcome;
      if rc == Ok {
        rc := p.Finish();
      }
      done := rc == Ok;
    }

    /** Reset the stream and keep the connection. A closed stream is left as it is, with what is
        held of it. */
    method Cancel(flushed: bool)
      modifies this`held, this`cancelled, this`failed
      ensures close != Open || failed == (old(failed) || !flushed)
      ensures Reusable() <==>
        if old(close != Open || failed) then old(Reusable()) else flushed && !goaway && allowed
    {
      if close != Open || failed {
        return;
      }
      held := [];
      if flushed {
        cancelled := true;
      } else {
        failed := true;
      }
    }
  }

  /** Read a body to its end: the sink has all the DATA of the stream, or all that zlib made of it,
      exactly when the stream closes cleanly and, if coded, the compressed stream with it. */
  method ReadFrames(q: Session, p: Pipe, env: nat -> Env) returns (rc: Code)
    requires q.Valid() && q.Passed(p) && q.fed == [] && q.held == []
    modifies q, p`rawSeen, p.sink, p.sink.buffer, p.inflater
    ensures p.Valid() && (p.maxBody > 0 ==> p.sink.written <= p.maxBody) && |q.fed| <= |q.all|
    ensures old(p.sink.buffer.data == p.sink.total) ==> p.sink.buffer.data == p.sink.total
    ensures rc == Ok ==> q.outcome == Ok && q.fed == q.all
    ensures rc == Ok ==> q.close == Closed(Ok) && !q.failed && !q.cancelled
    ensures rc == Ok ==> p.sink.total == if p.inflater == null then q.all else p.inflater.made
    ensures rc == Ok && p.inflater != null ==> p.inflater.finished || p.inflater.inTotal == 0
    ensures AllCalm(env) && rc != Ok ==>
      || (rc == q.outcome && q.fed == q.all) || p.Refuses(rc, q.fed)
      || (rc == BodyDecode && q.fed == q.all != [] && p.inflater != null && !p.inflater.finished)
  {
    rc := Ok;
    var done, i := false, 0;
    while rc == Ok && !done
      invariant p.Valid() && |q.fed| <= |q.all| && (rc == Ok ==> q.Valid() && q.Passed(p))
      invariant rc == Ok ==> q.held == []
      invariant old(p.sink.buffer.data == p.sink.total) ==> p.sink.buffer.data == p.sink.total
      invariant rc == Ok && done ==> q.close == Closed(Ok) && q.fed == q.all
      invariant rc == Ok && done && p.inflater != null ==> p.inflater.finished || p.inflater.inTotal == 0
      invariant AllCalm(env) && rc != Ok ==>
        || (rc == q.outcome && q.fed == q.all) || p.Refuses(rc, q.fed)
        || (rc == BodyDecode && q.fed == q.all != [] && p.inflater != null && !p.inflater.finished)
      decreases rc == Ok, !done, |q.script|
    {
      assert AllCalm(env) ==> Calm(env(i));
      rc, done := q.Step(p, env(i));
      i := i + 1;
    }
  }
}
