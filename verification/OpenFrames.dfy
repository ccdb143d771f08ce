/** A body the caller pulls over HTTP/2: the steps of the session, run only when the caller asks and
    nothing is staged. What is pulled concatenates to the DATA of the stream, and the connection is
    parted with once, for reuse only if the session can carry another request. */
module OpenFrames {
  import opened Base
  import opened Inflate
  import opened Body
  import opened H2Body
  import opened Reuse

  class Pulled {
    const q: Session
    const p: Pipe
    var open: bool
    var off: nat
    var ended: bool
    var aborted: bool
    var failed: bool
    /** Each time the connection was given back or closed, and why. */
    var disposals: seq<Reason>
    ghost var delivered: seq<Byte>
    /** Why the body failed, and whether the outside ever stood in the way. */
    ghost var failure: Code
    ghost var hindered: bool

    ghost predicate Managed()
      reads this
    {
      && |disposals| == (if open then 0 else 1)
      && open == !(ended || aborted || failed)
      && !(ended && (aborted || failed)) && !(aborted && failed)
      && (disposals == [ReuseOk] ==> !failed)
    }

    /** The stream closed as it should, and all it carried is in the sink, or all zlib made of it. */
    ghost predicate AllThere()
      reads this, q, p, p.sink, p.inflater
    {
      && q.outcome == Ok && q.fed == q.all
      && p.sink.total == (if p.inflater == null then q.all else p.inflater.made)
    }

    /** The reasons a step may fail for with nothing outside in the way. */
    ghost predicate Excused(rc: Code)
      reads this, q, p, p.sink, p.inflater
    {
      || (rc == q.outcome && q.fed == q.all)
      || p.Refuses(rc, q.fed)
      || (rc == BodyDecode && q.fed == q.all != [] && p.inflater != null && !p.inflater.finished)
    }

    ghost predicate Valid()
      reads this, q, p, p.sink, p.sink.buffer, p.inflater
    {
      && Managed() && p.Valid()
      && off <= |p.sink.buffer.data|
      && delivered + p.sink.buffer.data[off..] == p.sink.total
      && (open ==> q.Valid() && q.Passed(p) && q.held == [])
      && (ended ==> AllThere())
      && (failed && !hindered ==> Excused(failure))
    }

    constructor (q: Session, p: Pipe)
      requires q.Valid() && q.Passed(p) && q.held == [] && p.Valid()
      requires p.sink.total == [] && p.sink.buffer.data == []
      ensures Valid() && open && delivered == [] && !hindered && this.q == q && this.p == p
    {
      this.q, this.p := q, p;
      open, off, ended, aborted, failed, disposals := true, 0, false, false, false, [];
      delivered, failure, hindered := [], Ok, false;
    }

    /** Part with the connection, unless that has been done. */
    method Dispose(reason: Reason)
      modifies this`open, this`disposals
      ensures !open
      ensures disposals == if old(open) then old(disposals) + [reason] else old(disposals)
    {
      if open {
        disposals := disposals + [reason];
        open := false;
      }
    }

    /** The session has answered: a failure or the end of the stream costs the body its connection,
        which is reusable exactly after an end that leaves the session able to go on. */
    method Settle(rc: Code, done: bool, ghost calm: bool)
      requires open && disposals == [] && !ended && !failed && !aborted && (done ==> rc == Ok)
      modifies this`open, this`disposals, this`ended, this`failed, this`failure, this`hindered
      ensures Managed() && !aborted && failed == (rc != Ok) && ended == done
      ensures disposals == [ReuseOk] <==> done && q.Reusable() && p.surplus == 0
      ensures failure == rc && hindered == (old(hindered) || !calm)
    {
      failure, hindered := rc, hindered || !calm;
      failed, ended := rc != Ok, done;
      var reason := if rc == Cancelled || rc == Timeout then WasCancelled
                    else if rc != Ok || !q.Reusable() then BodyIncomplete
                    else if p.surplus > 0 then BadFraming
                    else ReuseOk;
      if failed || ended {
        Dispose(reason);
        assert disposals == [reason];
      }
    }

    method Conclude(rc: Code, done: bool, ghost calm: bool)
      requires open && disposals == [] && !ended && !failed && !aborted && (done ==> rc == Ok)
      requires p.Valid() && off == 0 && delivered + p.sink.buffer.data[off..] == p.sink.total
      requires rc == Ok ==> q.Valid() && q.Passed(p) && q.held == []
      requires done ==> AllThere()
      requires calm && rc != Ok ==> Excused(rc)
      modifies this`open, this`disposals, this`ended, this`failed, this`failure, this`hindered
      ensures Valid() && !aborted && failed == (rc != Ok) && ended == done
      ensures failure == rc && hindered == (old(hindered) || !calm)
    {
      Settle(rc, done, calm);
    }

    /** Step the session over an emptied staging buffer. */
    method Advance(e: Env) returns (rc: Code, done: bool)
      requires q.Valid() && q.Passed(p) && q.held == [] && delivered == p.sink.total
      modifies this`off, q, p`rawSeen, p.sink, p.sink.buffer, p.inflater
      ensures p.Valid() && off == 0 && delivered + p.sink.buffer.data[off..] == p.sink.total
      ensures rc == Ok ==> q.Valid() && q.Passed(p) && q.held == []
      ensures rc == Ok && !done ==> |q.script| < old(|q.script|)
      ensures done ==> rc == Ok && AllThere()
      ensures Calm(e) && rc != Ok ==> Excused(rc)
    {
      p.sink.buffer.data := [];
      off := 0;
      rc, done := q.Step(p, e);
      assert p.sink.buffer.data[off..] == p.sink.buffer.data;
    }

    method Refill(e: Env) returns (rc: Code)
      requires Valid() && open && off == |p.sink.buffer.data|
      modifies this, q, p`rawSeen, p.sink, p.sink.buffer, p.inflater
      ensures Valid() && !aborted && delivered == old(delivered)
      ensures failed == (rc != Ok) && failure == rc
      ensures rc == Ok && !ended ==> |q.script| < old(|q.script|)
      ensures hindered == (old(hindered) || !Calm(e))
    {
      assert delivered == p.sink.total && disposals == [];
      var done;
      rc, done := Advance(e);
      Conclude(rc, done, Calm(e));
    }

    /** Pull at most n bytes. Nothing comes back for n >= 1 only when the body is over. */
    method Read(n: nat, env: nat -> Env, memory: bool) returns (rc: Code, out: seq<Byte>)
      requires Valid()
      modifies this, q, p`rawSeen, p.sink, p.sink.buffer, p.inflater
      ensures Valid() && delivered == old(delivered) + out
      ensures old(failed) ==> rc == Io && out == []
      ensures old(aborted) ==> rc == Cancelled && out == []
      ensures rc == Ok ==> !failed && !aborted && |out| <= n
      ensures rc == Ok && n > 0 && out == [] ==> ended && off == |p.sink.buffer.data|
      ensures rc != Ok ==> out == []
      ensures rc != Ok && !old(failed) && !old(aborted) ==>
                (failed && failure == rc) || (rc == NoMem && !memory && n > 0 && !failed)
      ensures AllCalm(env) ==> hindered == old(hindered)
    {
      out := [];
      if failed {
        return Io, [];
      }
      if aborted {
        return Cancelled, [];
      }
      var i := 0;
      while off == |p.sink.buffer.data| && !ended
        invariant Valid() && !failed && !aborted && delivered == old(delivered)
        invariant AllCalm(env) ==> hindered == old(hindered)
        decreases !ended, |q.script|
      {
        assert AllCalm(env) ==> Calm(env(i));
        rc := Refill(env(i));
        if rc != Ok {
          return;
        }
        i := i + 1;
      }
      if n > 0 && off < |p.sink.buffer.data| && !memory {
        return NoMem, [];
      }
      out := Hand(n);
      return Ok, out;
    }

    method Hand(n: nat) returns (out: seq<Byte>)
      requires Valid()
      modifies this`off, this`delivered
      ensures Valid() && delivered == old(delivered) + out
      ensures |out| == Min(n, |p.sink.buffer.data| - old(off)) && off == old(off) + |out|
    {
      var k := Min(n, |p.sink.buffer.data| - off);
      out := p.sink.buffer.data[off..off + k];
      assert p.sink.buffer.data[off..] == out + p.sink.buffer.data[off + k..];
      Regroup(delivered, out, p.sink.buffer.data[off + k..]);
      off, delivered := off + k, delivered + out;
    }

    /** Reset the stream and part with the connection: for reuse exactly if the session can go on
        without what was left of the body. */
    method Abort(flushed: bool)
      requires Valid()
      modifies this`aborted, this`open, this`disposals, q`held, q`cancelled, q`failed
      ensures Valid() && !open
      ensures !old(open) ==> disposals == old(disposals)
      ensures old(open) ==>
        disposals == [if (if old(q.close == H2Body.Open) then flushed && !q.goaway && q.allowed else old(q.Reusable()))
                      then ReuseOk else WasCancelled]
    {
      if ended || aborted || failed {
        return;
      }
      q.Cancel(flushed);
      aborted := true;
      var reason := if q.Reusable() then ReuseOk else WasCancelled;
      Dispose(reason);
      assert disposals == [reason];
    }

    /** Freeing an open body parts with its connection if nothing has yet, and not again. */
    method Free(flushed: bool)
      requires Valid()
      modifies this`aborted, this`open, this`disposals, q`held, q`cancelled, q`failed
      ensures |disposals| == 1
      ensures !old(open) ==> disposals == old(disposals)
    {
      Abort(flushed);
      Dispose(WasCancelled);
    }

    ghost predicate EndedClean()
      reads this, p, p.sink, p.sink.buffer
    {
      !aborted && !failed && ended && off == |p.sink.buffer.data|
    }
  }

  /** When a pulled body has ended cleanly the caller has all the DATA of the stream, or all that zlib
      made of it; before that a prefix. It fails, with nothing outside in the way, only as its
      stream does or for what the body itself calls for. */
  lemma PulledIsCarried(b: Pulled)
    requires b.Valid()
    ensures b.delivered <= b.p.sink.total
    ensures b.EndedClean() ==>
      && b.q.outcome == Ok
      && b.delivered == if b.p.inflater == null then b.q.all else b.p.inflater.made
    ensures b.failed && !b.hindered ==> b.Excused(b.failure)
  {
    if b.EndedClean() {
      assert b.p.sink.buffer.data[b.off..] == [];
    }
  }
}
