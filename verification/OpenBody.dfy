/** A body the caller pulls over HTTP/1.1: the same reader steps, run only when the caller asks and
    nothing is staged. Whatever sizes the caller asks for, the pieces concatenate to the framed
    body, a failure is the one the wire dictates, and the connection is disposed of exactly once. */
module OpenBody {
  import opened Base
  import opened Body
  import opened Reader
  import opened Reuse
  import opened Exchange

  class Pulled {
    const s: Stream
    const r: BodyReader
    const p: Pipe
    const reuseIfEnded: Reason
    var open: bool
    var off: nat
    var ended: bool
    var aborted: bool
    var failed: bool
    /** Each time the connection was given back or closed, and why. */
    var disposals: seq<Reason>
    ghost const all: seq<Byte>
    ghost const ending: Read
    ghost var delivered: seq<Byte>
    /** Why the body failed, and whether the outside ever stood in the way. */
    ghost var failure: Code
    ghost var hindered: bool

    /** The connection is held exactly while the body is open, and given back reusable only after
        an end with nothing left over. */
    ghost predicate Managed()
      reads this, p
    {
      && |disposals| == (if open then 0 else 1)
      && open == !(ended || aborted || failed)
      && !(ended && (aborted || failed)) && !(aborted && failed)
      && (disposals == [ReuseOk] ==> ended && p.surplus == 0 && reuseIfEnded == ReuseOk)
    }

    ghost predicate Valid()
      reads this, s, r, p, p.sink, p.sink.buffer, p.inflater, r.dec
    {
      && Managed()
      && off <= |p.sink.buffer.data|
      && r.Sound(s, p)
      && s.got + Bytes(s.script) == all && Ending(s.script) == ending
      && delivered + p.sink.buffer.data[off..] == p.sink.total
      && (!failed && !aborted ==> r.Valid(s, p) && ended == r.done)
      && (failed && !hindered ==> r.Excused(s, p, failure))
    }

    constructor (s: Stream, r: BodyReader, p: Pipe, reuseIfEnded: Reason)
      requires r.Valid(s, p) && !r.done && r.fed == [] && s.got == []
      requires p.sink.total == [] && p.sink.buffer.data == []
      ensures Valid() && open && delivered == [] && !hindered
      ensures this.s == s && this.r == r && this.p == p && this.reuseIfEnded == reuseIfEnded
      ensures all == Bytes(s.script) && ending == Ending(s.script)
    {
      this.s, this.r, this.p, this.reuseIfEnded := s, r, p, reuseIfEnded;
      open, off, ended, aborted, failed, disposals := true, 0, false, false, false, [];
      delivered, all, ending := [], Bytes(s.script), Ending(s.script);
      failure, hindered := Ok, false;
    }

    /** Part with the connection, unless that has been done. */
    method Dispose(reason: Reason)
      modifies this`open, this`disposals
      ensures !open
      ensures disposals == if old(open) then old(disposals) + [reason] else old(disposals)
    {
      if open {
        disposals := disposals + [reason];
        open := false;
      }
    }

    /** The reader has answered: a failure or the end of the body costs the connection, which is
        reusable only after an end with nothing left over. */
    method Settle(rc: Code, ghost calm: bool)
      requires open && disposals == [] && !ended && !failed && !aborted
      modifies this`open, this`disposals, this`ended, this`failed, this`failure, this`hindered
      ensures Managed() && !aborted
      ensures failed == (rc != Ok) && ended == (rc == Ok && r.done)
      ensures disposals == [ReuseOk] <==> rc == Ok && r.done && p.surplus == 0 && reuseIfEnded == ReuseOk
      ensures failure == rc && hindered == (old(hindered) || !calm)
    {
      failure, hindered := rc, hindered || !calm;
      failed, ended := rc != Ok, rc == Ok && r.done;
      var reason := if rc == Cancelled || rc == Timeout then WasCancelled
                    else if rc != Ok then BodyIncomplete
                    else if reuseIfEnded == ReuseOk && p.surplus > 0 then BadFraming
                    else reuseIfEnded;
      if failed || ended {
        Dispose(reason);
        assert disposals == [reason];
      }
    }

    /** An answer settled: the body is in order again. */
    method Conclude(rc: Code, ghost calm: bool)
      requires open && disposals == [] && !ended && !failed && !aborted
      requires r.Sound(s, p) && off == 0 && delivered + p.sink.buffer.data[off..] == p.sink.total
      requires s.got + Bytes(s.script) == all && Ending(s.script) == ending
      requires rc == Ok ==> r.Valid(s, p)
      requires calm && rc != Ok ==> r.Excused(s, p, rc)
      modifies this`open, this`disposals, this`ended, this`failed, this`failure, this`hindered
      ensures Valid() && !aborted && failed == (rc != Ok)
      ensures failure == rc && hindered == (old(hindered) || !calm)
    {
      Settle(rc, calm);
    }

    /** Step the reader over an emptied staging buffer: what it holds afterwards is what the sink
        has gained. */
    method Advance(e: Env) returns (rc: Code)
      requires r.Valid(s, p) && !r.done && delivered == p.sink.total
      modifies this`off, s, r, p, p.sink, p.sink.buffer, p.inflater, r.dec
      ensures r.Sound(s, p) && off == 0 && delivered + p.sink.buffer.data[off..] == p.sink.total
      ensures s.got + Bytes(s.script) == old(s.got + Bytes(s.script)) && Ending(s.script) == old(Ending(s.script))
      ensures rc == Ok ==> r.Valid(s, p) && r.Left(s) < old(r.Left(s))
      ensures Calm(e) && rc != Ok ==> r.Excused(s, p, rc)
    {
      p.sink.buffer.data := [];
      off := 0;
      rc := r.Step(s, p, e);
      assert p.sink.buffer.data[off..] == p.sink.buffer.data;
    }

    /** One step of the reader into an empty staging buffer. */
    method Refill(e: Env) returns (rc: Code)
      requires Valid() && open && off == |p.sink.buffer.data|
      modifies this, s, r, p, p.sink, p.sink.buffer, p.inflater, r.dec
      ensures Valid() && delivered == old(delivered)
      ensures rc == Ok ==> !failed && !aborted && (open ==> r.Left(s) < old(r.Left(s)))
      ensures rc != Ok ==> failed && failure == rc
      ensures hindered == (old(hindered) || !Calm(e))
    {
      assert delivered == p.sink.total && disposals == [];
      rc := Advance(e);
      Conclude(rc, Calm(e));
    }

    /** Pull at most n bytes. Nothing comes back for n >= 1 only when the body is over. When the
        caller's buffer cannot grow the bytes stay staged, so a later pull still gets them. */
    method Read(n: nat, env: nat -> Env, memory: bool) returns (rc: Code, out: seq<Byte>)
      requires Valid()
      modifies this, s, r, p, p.sink, p.sink.buffer, p.inflater, r.dec
      ensures Valid()
      ensures old(failed) ==> rc == Io && out == [] && delivered == old(delivered)
      ensures old(aborted) ==> rc == Cancelled && out == [] && delivered == old(delivered)
      ensures rc == Ok ==> !failed && !aborted && |out| <= n
      ensures delivered == old(delivered) + out
      ensures rc == Ok && n > 0 && out == [] ==> ended && off == |p.sink.buffer.data|
      ensures rc != Ok ==> out == []
      ensures rc != Ok && !old(failed) && !old(aborted) ==>
                (failed && failure == rc) || (rc == NoMem && !memory && n > 0 && !failed)
      ensures AllCalm(env) ==> hindered == old(hindered)
    {
      out := [];
      if failed {
        return Io, [];
      }
      if aborted {
        return Cancelled, [];
      }
      var i := 0;
      while off == |p.sink.buffer.data| && !ended
        invariant Valid() && !failed && !aborted && delivered == old(delivered)
        invariant AllCalm(env) ==> hindered == old(hindered)
        decreases !ended, r.Left(s)
      {
        assert AllCalm(env) ==> Calm(env(i));
        rc := Refill(env(i));
        if rc != Ok {
          return;
        }
        i := i + 1;
      }
      if n > 0 && off < |p.sink.buffer.data| && !memory {
        return NoMem, [];
      }
      out := Hand(n);
      return Ok, out;
    }

    /** Copy out of the staging buffer. */
    method Hand(n: nat) returns (out: seq<Byte>)
      requires Valid()
      modifies this`off, this`delivered
      ensures Valid() && delivered == old(delivered) + out
      ensures |out| == Min(n, |p.sink.buffer.data| - old(off)) && off == old(off) + |out|
    {
      var k := Min(n, |p.sink.buffer.data| - off);
      out := p.sink.buffer.data[off..off + k];
      Handed(delivered, p.sink.buffer.data, off, k);
      off := off + k;
      delivered := delivered + out;
    }

    method Abort()
      requires Valid()
      modifies this`aborted, this`open, this`disposals
      ensures Valid() && !open
      ensures disposals == if old(open) then [WasCancelled] else old(disposals)
    {
      if ended || aborted || failed {
        return;
      }
      aborted := true;
      assert disposals == [];
      Dispose(WasCancelled);
      assert disposals == [WasCancelled];
    }

    /** Freeing an open body disposes of its connection if nothing has yet, and not again. */
    method Free()
      requires Valid()
      modifies this`aborted, this`open, this`disposals
      ensures |disposals| == 1
      ensures !old(open) ==> disposals == old(disposals)
    {
      Abort();
      Dispose(WasCancelled);
    }

    ghost predicate EndedClean()
      reads this, p, p.sink, p.sink.buffer
    {
      !aborted && !failed && ended && off == |p.sink.buffer.data|
    }
  }

  lemma Handed(d: seq<Byte>, buf: seq<Byte>, off: nat, k: nat)
    requires off + k <= |buf|
    ensures d + buf[off..] == d + buf[off..off + k] + buf[off + k..]
  {
    assert buf[off..] == buf[off..off + k] + buf[off + k..];
  }

  /** The pulled form and the buffered one agree. A pulled body that has ended cleanly has delivered
      what the buffered form leaves in its sink: the framed body of the wire, or all that zlib made
      of it. One that has failed with nothing outside in the way has failed with the code that the
      buffered form fails with. Before either the caller has a prefix. The connection goes back
      for reuse only when the bytes received after the head are exactly the message. */
  lemma PulledIsFramed(b: Pulled)
    requires b.Valid()
    ensures b.delivered <= b.p.sink.total
    ensures b.EndedClean() ==> b.delivered == b.p.sink.total && Complete(b.r, b.p)
    ensures b.EndedClean() && b.r.dec == null ==> Framed(b.r.kind, b.r.seed0 + b.all, b.ending) == Whole(b.r.fed)
    ensures b.failed && !b.hindered ==> b.r.Excused(b.s, b.p, b.failure)
    ensures b.failed && !b.hindered && b.r.dec == null && b.p.inflater == null
            && Fits(b.r.kind, b.r.seed0 + b.all, b.p.maxBody) ==>
              Framed(b.r.kind, b.r.seed0 + b.all, b.ending) == Broken(b.failure)
    ensures b.disposals == [ReuseOk] ==> |b.r.seed0| + |b.s.got| == MessageBytes(b.r)
  {
    if b.ended {
      DoneIsWhole(b.s, b.r, b.p, b.all);
      assert b.off == |b.p.sink.buffer.data| ==> b.p.sink.buffer.data[b.off..] == [];
    }
    if b.failed && !b.hindered && b.r.dec == null && b.p.inflater == null
       && Fits(b.r.kind, b.r.seed0 + b.all, b.p.maxBody) {
      FailsAsFramed(b.s, b.r, b.p, b.all, b.failure);
    }
  }
}
