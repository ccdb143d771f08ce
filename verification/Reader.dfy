/** The framing reader. Its state says how far into the framed body a connection is; a step takes
    one read further, for bodies collected whole and for bodies pulled alike. */
module Reader {
  import opened Base
  import opened Body
  import opened Inflate

  datatype Kind = NoBody | Length(length: nat) | UntilClose | ChunkedBody

  // ---- what a body is, as a function of the wire ----

  datatype Outcome = Whole(body: seq<Byte>) | Broken(code: Code)

  /** The framed body of a wire that yields these bytes and then this ending. It depends on the
      bytes alone, not on how they were split into reads. */
  function Framed(kind: Kind, wire: seq<Byte>, ending: Read): Outcome
    requires !ending.Data? && !kind.ChunkedBody?
  {
    match kind
    case NoBody => Whole([])
    case Length(n) => if n <= |wire| then Whole(wire[..n]) else Broken(Starved(ending))
    case UntilClose => if ending.Fail? then Broken(ending.code) else Whole(wire)
  }

  function Starved(ending: Read): Code
  {
    if ending.Fail? then ending.code else Parse
  }

  /** The cap leaves the body alone. */
  predicate Fits(kind: Kind, wire: seq<Byte>, maxBody: nat)
  {
    maxBody > 0 ==> (kind.Length? ==> kind.length <= maxBody) && (kind.UntilClose? ==> |wire| <= maxBody)
  }

  class BodyReader {
    const kind: Kind
    const dec: Chunked?
    var seed: seq<Byte>
    var done: bool
    ghost const seed0: seq<Byte>
    /** Bytes handed to the pipe, and bytes found past the end of the framing. */
    ghost var fed: seq<Byte>
    ghost var extra: seq<Byte>

    constructor (kind: Kind, seed: seq<Byte>, dec: Chunked?)
      requires kind.ChunkedBody? <==> dec != null
      ensures this.kind == kind && this.seed == seed && this.seed0 == seed && this.dec == dec
      ensures !done && fed == [] && extra == []
    {
      this.kind, this.dec, this.seed, this.seed0 := kind, dec, seed, seed;
      done, fed, extra := false, [], [];
    }

    /** Every byte received is body, surplus, or still held, in that order on the wire. */
    ghost predicate Accounted(s: Stream, p: Pipe)
      reads this, s, p
    {
      && fed + extra + seed == seed0 + s.got
      && p.rawSeen == |fed| && p.surplus == |extra|
      && (!done ==> seed != [] ==> s.got == [])
      && (!done && extra != [] ==> kind.Length? && |fed| == kind.length)
      && (done ==> seed == [])
      && (kind.NoBody? ==> fed == [])
      && (kind.Length? ==> |fed| <= kind.length && (done ==> |fed| == kind.length))
      && (kind.UntilClose? ==> extra == [] && (done ==> Bytes(s.script) == [] && Ending(s.script) == Eof))
    }

    /** For a chunked body `rawSeen` counts every wire byte decoded; what the message did not use
        of them, and what was never decoded, is surplus. The pipe got what the parser decoded. */
    ghost predicate AccountedChunked(s: Stream, p: Pipe)
      reads this, s, p, dec
      requires dec != null
    {
      && fed == dec.decoded && dec.raw == [] && !dec.Faulty()
      && dec.collected <= dec.wire
      && (p.maxBody > 0 ==> |dec.decoded| <= p.maxBody)
      && (!done ==> && p.surplus == 0 && dec.Valid() && (seed != [] ==> s.got == [])
                    && p.rawSeen + |seed| == |seed0| + |s.got| && dec.wire == p.rawSeen)
      && (done ==> dec.Ended() && seed == [] && dec.message + p.surplus == |seed0| + |s.got|)
    }

    /** The parts belong together: one chunk decoder for a chunked body, under the pipe's cap. */
    ghost predicate Fitted(p: Pipe)
      reads dec
    {
      && (kind.ChunkedBody? <==> dec != null)
      && (dec != null ==> dec.maxTotal == p.maxBody)
    }

    /** What has gone through the pipe: on identity the sink has it, else zlib was given it. */
    ghost predicate Passed(p: Pipe)
      reads this, p, p.sink, p.inflater
    {
      && (p.inflater == null ==> p.sink.total == fed)
      && (p.inflater != null ==> p.inflater.inTotal == Cast(|fed|, SPAN))
    }

    ghost predicate Valid(s: Stream, p: Pipe)
      reads this, s, p, p.sink, p.inflater, dec
    {
      && Fitted(p) && Proper(s.script)
      && p.Valid() && p.Lossless() && Passed(p)
      && (if dec != null then AccountedChunked(s, p) else Accounted(s, p))
    }

    /** What is left to read, as a bound on the steps to come. */
    ghost function Left(s: Stream): nat
      reads this, s
    {
      |seed| + |s.script| + (if done then 0 else 1)
    }

    // ---- why a step may fail with nothing outside in the way ----

    /** The wire gave out first, with the framing still wanting more. */
    ghost predicate Starving(s: Stream, rc: Code)
      reads this, s, dec
    {
      && Bytes(s.script) == [] && !kind.NoBody?
      && (if dec != null then !done && dec.Valid() && dec.wire == |seed0| + |s.got| else fed == seed0 + s.got)
      && (if kind.UntilClose? then Ending(s.script) == Fail(rc) else rc == Starved(Ending(s.script)))
      && (kind.Length? ==> |fed| < kind.length)
    }

    /** The chunk decoder has cause: more decoded bytes than the cap, a verdict of one of the parsers,
        or a trailer section at its limit. */
    ghost predicate Unchunked(p: Pipe, rc: Code)
      reads dec
    {
      && dec != null
      && (if rc == BodyLimit then p.maxBody > 0 && |dec.decoded| > p.maxBody else rc == Parse && dec.Faulty())
    }

    /** The framing was through before the compressed stream was. */
    ghost predicate Unfinished(p: Pipe, rc: Code)
      reads this, p, p.inflater
    {
      rc == BodyDecode && done && p.inflater != null && !p.inflater.finished && fed != []
    }

    ghost predicate Excused(s: Stream, p: Pipe, rc: Code)
      reads this, s, p, p.sink, p.inflater, dec
    {
      Starving(s, rc) || p.Refuses(rc, fed) || Unchunked(p, rc) || Unfinished(p, rc)
    }

    /** A step outside the trailer asks the chunk parser about what it reads; one inside it, or one
        that finds nothing to read, does not. */
    twostate predicate Consulted(e: Env, rc: Code)
      requires dec != null
      reads dec
    {
      && (dec.closing == old(dec.closing) || dec.closing == e.trailer)
      && (old(dec.inTrailer) ==> dec.inTrailer && dec.verdicts == old(dec.verdicts))
      && (!old(dec.inTrailer) ==>
            dec.verdicts == old(dec.verdicts) + [e.chunk] || (dec.verdicts == old(dec.verdicts) && rc != Ok))
    }

    /** What holds after any step, a failed one included. */
    ghost predicate Sound(s: Stream, p: Pipe)
      reads this, s, p, p.sink, p.inflater, dec
    {
      && Fitted(p) && Proper(s.script) && p.Valid()
      && (dec == null ==>
            fed <= seed0 + s.got && (kind.Length? ==> |fed| <= kind.length) && (kind.NoBody? ==> fed == []))
      && (dec != null ==>
            && fed == dec.decoded + dec.raw && (dec.raw == [] <==> NoneMalformed(dec.verdicts))
            && dec.collected <= |seed0| + |s.got|)
    }

    /** The seed first, a chunk at a time, then the stream. */
    method NextBytes(s: Stream) returns (r: Read)
      requires Proper(s.script) && (seed != [] ==> s.got == [])
      modifies this`seed, s
      ensures Proper(s.script) && (seed != [] ==> s.got == [])
      ensures Ending(s.script) == old(Ending(s.script))
      ensures s.got + Bytes(s.script) == old(s.got + Bytes(s.script))
      ensures r.Data? ==> 0 < |r.bytes| <= READ_CHUNK && |seed| + |s.script| < old(|seed| + |s.script|)
      ensures r.Data? && old(seed) != [] ==> s.got == old(s.got) && r.bytes + seed == old(seed)
      ensures r.Data? && old(seed) == [] ==> s.got == old(s.got) + r.bytes && seed == []
      ensures !r.Data? ==> seed == old(seed) == [] && s.script == old(s.script) && s.got == old(s.got)
                           && Bytes(s.script) == [] && r == Ending(s.script)
      ensures r.Fail? ==> r.code != Ok
    {
      if seed != [] {
        var n := Min(|seed|, READ_CHUNK);
        r := Data(seed[..n]);
        seed := seed[n..];
        return;
      }
      r := s.Next();
    }

    /** No body, or none left: whatever is still held belongs to no response. */
    method EndHere(s: Stream, p: Pipe)
      requires Valid(s, p) && !done && (kind.NoBody? || (kind.Length? && p.rawSeen >= kind.length))
      modifies this, p`surplus
      ensures Valid(s, p) && Sound(s, p) && done && fed == old(fed)
      ensures Left(s) < old(Left(s))
    {
      p.surplus := p.surplus + |seed|;
      extra := extra + seed;
      seed := [];
      done := true;
      assert fed + extra == seed0 + s.got;
    }

    /** Hand bytes to the pipe, and remember that they were. */
    method HandOver(p: Pipe, e: Env, bytes: seq<Byte>) returns (rc: Code)
      requires p.Valid() && p.Lossless() && Passed(p)
      modifies this`fed, p.sink, p.sink.buffer, p.inflater
      ensures p.Valid() && fed == old(fed) + bytes
      ensures rc == Ok ==> p.Lossless() && Passed(p)
      ensures p.sink.Grew()
      ensures Calm(e) && rc != Ok ==> p.Refuses(rc, fed)
      ensures Calm(e) && p.inflater == null && rc != BodyLimit ==> p.sink.total == fed
    {
      CastAdds(|fed|, |bytes|, SPAN);
      rc := p.Feed(bytes, e, fed);
      fed := fed + bytes;
    }

    /** A run of wire bytes in hand: trim it to the framing, hand it over, count. */
    method Absorb(s: Stream, p: Pipe, e: Env, bytes: seq<Byte>) returns (rc: Code)
      requires !done && dec == null && (kind.Length? || kind.UntilClose?)
      requires Fitted(p) && Proper(s.script) && p.Valid() && p.Lossless() && Passed(p)
      requires fed + (bytes + seed) == seed0 + s.got && (seed != [] ==> s.got == [])
      requires extra == [] && p.surplus == 0 && p.rawSeen == |fed|
      requires kind.Length? ==> |fed| < kind.length
      modifies this`fed, this`extra, p, p.sink, p.sink.buffer, p.inflater
      ensures Sound(s, p)
      ensures rc == Ok ==> Valid(s, p)
      ensures p.sink.Grew()
      ensures Calm(e) && rc != Ok ==> p.Refuses(rc, fed)
      ensures Calm(e) && p.inflater == null && rc != BodyLimit ==> p.sink.total == fed
    {
      var take := |bytes|;
      if kind.Length? && p.rawSeen + take > kind.length {
        take := kind.length - p.rawSeen;
      }
      p.surplus := p.surplus + (|bytes| - take);
      Reassemble(fed, bytes, take, seed);
      assert fed + bytes[..take] <= seed0 + s.got;
      rc := HandOver(p, e, bytes[..take]);
      if rc == Ok {
        p.rawSeen := p.rawSeen + take;
        extra := bytes[take..];
      }
    }

    /** One read: it comes right after what has been handed over. */
    method TakeNext(s: Stream) returns (r: Read)
      requires Proper(s.script) && (seed != [] ==> s.got == []) && fed + seed == seed0 + s.got
      modifies this`seed, s
      ensures Proper(s.script) && (seed != [] ==> s.got == [])
      ensures Ending(s.script) == old(Ending(s.script))
      ensures s.got + Bytes(s.script) == old(s.got + Bytes(s.script))
      ensures r.Data? ==> fed + (r.bytes + seed) == seed0 + s.got && r.bytes != []
                          && |seed| + |s.script| < old(|seed| + |s.script|)
      ensures !r.Data? ==> seed == [] && s.script == old(s.script) && fed == seed0 + s.got
                           && Bytes(s.script) == [] && r == Ending(s.script)
      ensures r.Fail? ==> r.code != Ok
    {
      ghost var was, got := seed, s.got;
      r := NextBytes(s);
      if r.Data? {
        Onward(fed, was, r.bytes, seed, seed0, got, s.got);
      } else {
        assert fed + seed == fed;
      }
    }

    /** One read, for the framings that need no decoder. */
    method StepPlain(s: Stream, p: Pipe, e: Env) returns (rc: Code)
      requires Valid(s, p) && !done && (kind.UntilClose? || (kind.Length? && p.rawSeen < kind.length))
      modifies this, s, p, p.sink, p.sink.buffer, p.inflater
      ensures Sound(s, p)
      ensures rc == Ok ==> Valid(s, p) && Left(s) < old(Left(s)) && (done ==> kind.UntilClose?)
      ensures s.got + Bytes(s.script) == old(s.got + Bytes(s.script)) && Ending(s.script) == old(Ending(s.script))
      ensures p.sink.Grew()
      ensures Calm(e) && rc != Ok ==> Starving(s, rc) || p.Refuses(rc, fed)
      ensures Calm(e) && p.inflater == null && rc != BodyLimit ==> p.sink.total == fed
    {
      assert fed + extra == fed;
      var r := TakeNext(s);
      if r.Data? {
        rc := Absorb(s, p, e, r.bytes);
      } else {
        rc := WireEnds(s, p, r);
      }
    }

    /** Nothing more to read: that ends a body which the close delimits, and breaks any other. */
    method WireEnds(s: Stream, p: Pipe, r: Read) returns (rc: Code)
      requires Valid(s, p) && !done && (kind.UntilClose? || (kind.Length? && |fed| < kind.length))
      requires Bytes(s.script) == [] && r == Ending(s.script) && fed == seed0 + s.got && seed == []
      requires r.Fail? ==> r.code != Ok
      modifies this`done
      ensures Sound(s, p) && (rc == Ok ==> Valid(s, p) && done && kind.UntilClose?)
      ensures rc != Ok ==> Starving(s, rc)
    {
      done := r.Eof? && kind.UntilClose?;
      rc := if r.Fail? then r.code else if done then Ok else Parse;
    }

    /** A step of a body that is not chunked, up to its end. */
    method StepFramed(s: Stream, p: Pipe, e: Env) returns (rc: Code)
      requires Valid(s, p) && !done && dec == null
      modifies this, s, p, p.sink, p.sink.buffer, p.inflater
      ensures Sound(s, p)
      ensures rc == Ok ==> Valid(s, p) && Left(s) < old(Left(s))
      ensures s.got + Bytes(s.script) == old(s.got + Bytes(s.script)) && Ending(s.script) == old(Ending(s.script))
      ensures p.sink.Grew()
      ensures Calm(e) && rc != Ok ==> Starving(s, rc) || p.Refuses(rc, fed)
      ensures Calm(e) && p.inflater == null && rc != BodyLimit ==> p.sink.total == fed
    {
      if kind.NoBody? || (kind.Length? && p.rawSeen >= kind.length) {
        EndHere(s, p);
        return Ok;
      }
      rc := StepPlain(s, p, e);
      if rc == Ok && kind.Length? && p.rawSeen >= kind.length {
        EndHere(s, p);
      }
    }

    /** Count and decode, and what that means for the pipe. */
    method Dechunk(p: Pipe, e: Env, bytes: seq<Byte>) returns (code: Code, out: seq<Byte>)
      requires dec != null && bytes != [] && Fitted(p) && dec.Valid() && fed == dec.decoded && dec.wire == p.rawSeen
      requires dec.collected <= dec.wire
      modifies p`rawSeen, dec
      ensures p.rawSeen == old(p.rawSeen) + |bytes| && dec.wire == p.rawSeen
      ensures dec.raw == if !old(dec.inTrailer) && e.chunk.Malformed? then bytes else []
      ensures dec.verdicts == old(dec.verdicts) + if old(dec.inTrailer) then [] else [e.chunk]
      ensures old(dec.inTrailer) ==> dec.inTrailer
      ensures dec.decoded == old(dec.decoded)
        + if old(dec.inTrailer) || e.chunk.Malformed? then [] else Decoded(e.chunk, bytes)
      ensures fed + out == dec.decoded + dec.raw && (dec.raw == [] <==> NoneMalformed(dec.verdicts))
      ensures code == WouldBlock ==> dec.Valid()
      ensures code == Ok ==> dec.Ended() && dec.message + dec.surplus == p.rawSeen && dec.raw == [] && !dec.Faulty()
      ensures code != Ok && code != WouldBlock ==> Unchunked(p, code)
      ensures code != BodyLimit && p.maxBody > 0 ==> |dec.decoded| <= p.maxBody
      ensures dec.collected <= dec.wire && (dec.closing == old(dec.closing) || dec.closing == e.trailer)
    {
      p.rawSeen := p.rawSeen + |bytes|;
      code, out := dec.Decode(bytes, e.chunk, e.trailer);
      assert fed + out == dec.decoded + dec.raw;
    }

    /** Wire bytes of a chunked body are counted before decoding; what the decoder leaves at the
        front of the buffer goes to the pipe before its verdict counts. */
    method AbsorbChunk(s: Stream, p: Pipe, e: Env, bytes: seq<Byte>) returns (rc: Code)
      requires !done && dec != null && bytes != [] && Fitted(p)
      requires Proper(s.script) && p.Valid() && p.Lossless() && Passed(p) && dec.Valid() && fed == dec.decoded
      requires p.surplus == 0 && (seed != [] ==> s.got == [])
      requires p.rawSeen + |bytes| + |seed| == |seed0| + |s.got| && dec.collected <= dec.wire == p.rawSeen
      modifies this`fed, this`seed, this`done, p, p.sink, p.sink.buffer, p.inflater, dec
      ensures Sound(s, p) && |seed| <= old(|seed|)
      ensures dec.raw == if !old(dec.inTrailer) && e.chunk.Malformed? then bytes else []
      ensures dec.verdicts == old(dec.verdicts) + if old(dec.inTrailer) then [] else [e.chunk]
      ensures old(dec.inTrailer) ==> dec.inTrailer
      ensures dec.decoded == old(dec.decoded)
        + if old(dec.inTrailer) || e.chunk.Malformed? then [] else Decoded(e.chunk, bytes)
      ensures dec.closing == old(dec.closing) || dec.closing == e.trailer
      ensures rc == Ok ==> Valid(s, p)
      ensures p.sink.Grew()
      ensures Calm(e) && rc != Ok ==> p.Refuses(rc, fed) || Unchunked(p, rc)
      ensures Calm(e) && p.inflater == null && rc != BodyLimit ==> p.sink.total == fed
    {
      var code, out := Dechunk(p, e, bytes);
      var w := HandOver(p, e, out);
      rc := if w != Ok then w else if code == WouldBlock then Ok else code;
      if w == Ok && code == Ok {
        EndMessage(s, p);
      }
    }

    /** The last chunk and its trailer are in; what followed them is surplus. */
    method EndMessage(s: Stream, p: Pipe)
      requires dec != null && Sound(s, p) && !done
      requires p.Lossless() && Passed(p) && p.surplus == 0 && fed == dec.decoded && dec.raw == [] && !dec.Faulty()
      requires p.maxBody > 0 ==> |dec.decoded| <= p.maxBody
      requires p.rawSeen + |seed| == |seed0| + |s.got| && dec.message + dec.surplus == p.rawSeen
      requires dec.collected <= dec.wire && dec.Ended()
      modifies this`seed, this`done, p`surplus
      ensures Sound(s, p) && Valid(s, p) && done && seed == []
    {
      p.surplus := p.surplus + dec.surplus + |seed|;
      seed := [];
      done := true;
    }

    method StepChunked(s: Stream, p: Pipe, e: Env) returns (rc: Code)
      requires Valid(s, p) && !done && dec != null
      modifies this, s, p, p.sink, p.sink.buffer, p.inflater, dec
      ensures Sound(s, p)
      ensures rc == Ok ==> Valid(s, p) && Left(s) < old(Left(s))
      ensures s.got + Bytes(s.script) == old(s.got + Bytes(s.script)) && Ending(s.script) == old(Ending(s.script))
      ensures Consulted(e, rc)
      ensures p.sink.Grew()
      ensures Calm(e) && rc != Ok ==> Starving(s, rc) || p.Refuses(rc, fed) || Unchunked(p, rc)
      ensures Calm(e) && p.inflater == null && rc != BodyLimit ==> p.sink.total == fed
    {
      var r := NextBytes(s);
      if r.Data? {
        rc := AbsorbChunk(s, p, e, r.bytes);
      } else {
        rc := if r.Fail? then r.code else Parse;
      }
    }

    /** One read's worth; the end of the framing also ends the pipe. A step that fails with nothing
        outside in the way has one of four reasons. */
    method Step(s: Stream, p: Pipe, e: Env) returns (rc: Code)
      requires Valid(s, p)
      modifies this, s, p, p.sink, p.sink.buffer, p.inflater, dec
      ensures old(done) || Sound(s, p)
      ensures rc == Ok ==> Valid(s, p) && (old(done) || Left(s) < old(Left(s)))
      ensures rc == Ok && done && !old(done) && p.inflater != null ==> p.inflater.finished || p.inflater.inTotal == 0
      ensures s.got + Bytes(s.script) == old(s.got + Bytes(s.script)) && Ending(s.script) == old(Ending(s.script))
      ensures dec != null && !old(done) ==> Consulted(e, rc)
      ensures p.sink.Grew()
      ensures Calm(e) && rc != Ok ==> Excused(s, p, rc)
      ensures Calm(e) && p.inflater == null && rc != BodyLimit ==> p.sink.total == fed
    {
      rc := Ok;
      if done {
        return;
      }
      if dec != null {
        rc := StepChunked(s, p, e);
      } else {
        rc := StepFramed(s, p, e);
      }
      if rc == Ok && done {
        rc := p.Finish();
      }
    }
  }

  lemma Onward(fed: seq<Byte>, was: seq<Byte>, bytes: seq<Byte>, seed: seq<Byte>,
               seed0: seq<Byte>, got0: seq<Byte>, got: seq<Byte>)
    requires fed + was == seed0 + got0
    requires was != [] ==> got == got0 && bytes + seed == was
    requires was == [] ==> got == got0 + bytes && seed == []
    ensures fed + (bytes + seed) == seed0 + got
  {
    if was == [] {
      assert fed == seed0 + got0;
      assert bytes + seed == bytes;
    }
  }

  lemma Reassemble(f: seq<Byte>, b: seq<Byte>, k: nat, seed: seq<Byte>)
    requires k <= |b|
    ensures (f + b[..k]) + b[k..] + seed == f + (b + seed)
  {
    assert b[..k] + b[k..] == b;
  }
}
