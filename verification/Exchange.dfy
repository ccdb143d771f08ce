/** Bodies read to their end: what then is in the sink, why a read can fail, and what the cap means
    for coded bodies. */
module Exchange {
  import opened Base
  import opened Body
  import opened Inflate
  import opened Reader

  // ---- from the reader's books to the framed body ----

  lemma DoneIsFramed(kind: Kind, fed: seq<Byte>, extra: seq<Byte>, seed0: seq<Byte>, got: seq<Byte>,
                     rest: seq<Byte>, ending: Read)
    requires !ending.Data? && !kind.ChunkedBody? && fed + extra == seed0 + got
    requires kind.NoBody? ==> fed == []
    requires kind.Length? ==> |fed| == kind.length
    requires kind.UntilClose? ==> extra == [] && rest == [] && ending == Eof
    ensures Framed(kind, seed0 + (got + rest), ending) == Whole(fed)
  {
    var wire := seed0 + (got + rest);
    assert wire == seed0 + got + rest;
    assert wire == fed + extra + rest;
    assert kind.Length? ==> wire[..kind.length] == fed;
  }

  lemma StarvedIsBroken(kind: Kind, fed: seq<Byte>, wire: seq<Byte>, ending: Read, rc: Code)
    requires !ending.Data? && !kind.ChunkedBody? && !kind.NoBody? && fed == wire
    requires kind.Length? ==> |fed| < kind.length && rc == Starved(ending)
    requires kind.UntilClose? ==> ending == Fail(rc)
    ensures Framed(kind, wire, ending) == Broken(rc)
  {
  }

  /** How many wire bytes the framed message takes. */
  ghost function MessageBytes(r: BodyReader): nat
    reads r, r.dec
  {
    if r.dec != null then r.dec.message else |r.fed|
  }

  /** All that the sink should hold after a body read to its end: what was framed, or what zlib
      made of it. */
  ghost predicate Complete(r: BodyReader, p: Pipe)
    reads r, r.dec, p, p.sink, p.inflater
  {
    && p.sink.total == (if p.inflater == null then r.fed else p.inflater.made)
    && (r.dec != null ==> r.fed == r.dec.decoded && r.dec.Ended())
    && (p.maxBody > 0 ==> |p.sink.total| <= p.maxBody)
  }

  lemma DoneIsWhole(s: Stream, r: BodyReader, p: Pipe, all: seq<Byte>)
    requires r.Valid(s, p) && r.done && s.got + Bytes(s.script) == all
    ensures Complete(r, p) && MessageBytes(r) + p.surplus == |r.seed0| + |s.got|
    ensures r.dec == null ==> Framed(r.kind, r.seed0 + all, Ending(s.script)) == Whole(r.fed)
  {
    if r.dec == null {
      assert r.fed + r.extra == r.seed0 + s.got;
      DoneIsFramed(r.kind, r.fed, r.extra, r.seed0, s.got, Bytes(s.script), Ending(s.script));
    }
  }

  lemma StarvingIsBroken(s: Stream, r: BodyReader, all: seq<Byte>, rc: Code)
    requires s.got + Bytes(s.script) == all && r.dec == null && !r.kind.ChunkedBody? && r.Starving(s, rc)
    ensures Framed(r.kind, r.seed0 + all, Ending(s.script)) == Broken(rc)
  {
    assert s.got == all;
    StarvedIsBroken(r.kind, r.fed, r.seed0 + all, Ending(s.script), rc);
  }

  /** With identity coding and a cap that leaves the body alone, the wire is the only reason. */
  lemma FailsAsFramed(s: Stream, r: BodyReader, p: Pipe, all: seq<Byte>, rc: Code)
    requires r.Sound(s, p) && r.Excused(s, p, rc) && r.dec == null && p.inflater == null
    requires s.got + Bytes(s.script) == all && Fits(r.kind, r.seed0 + all, p.maxBody)
    ensures Framed(r.kind, r.seed0 + all, Ending(s.script)) == Broken(rc)
  {
    assert |r.fed| <= |r.seed0 + s.got| <= |r.seed0 + all|;
    StarvingIsBroken(s, r, all, rc);
  }

  /** The chunk parser's verdicts were the outside's, step by step. */
  ghost predicate Asked(verdicts: seq<Chunk>, env: nat -> Env)
  {
    forall j :: 0 <= j < |verdicts| ==> verdicts[j] == env(j).chunk
  }

  /** So was what the trailer parser said last. */
  ghost predicate Closed(closing: Trailer, env: nat -> Env)
  {
    closing.PartTrailer? || exists i :: env(i).trailer == closing
  }

  /** Why a chunked body that the wire suffices for is malformed: the outside said so of a chunk or of
      the trailer section, or that section has come to its limit. */
  lemma MalformedForCause(s: Stream, r: BodyReader, p: Pipe, env: nat -> Env)
    requires r.Sound(s, p) && r.dec != null && r.Excused(s, p, Parse) && !r.Starving(s, Parse)
    requires Asked(r.dec.verdicts, env) && Closed(r.dec.closing, env)
    ensures || (exists j :: 0 <= j < |r.dec.verdicts| && env(j).chunk.Malformed?)
            || (exists i :: env(i).trailer.BadTrailer?)
            || MAX_TRAILER <= r.dec.collected <= |r.seed0| + |s.got|
  {
    if !NoneMalformed(r.dec.verdicts) {
      var j :| 0 <= j < |r.dec.verdicts| && r.dec.verdicts[j].Malformed?;
      assert env(j).chunk.Malformed?;
    } else if r.dec.closing.BadTrailer? {
      var i :| env(i).trailer == r.dec.closing;
      assert env(i).trailer.BadTrailer?;
    }
  }

  lemma AskedOnce(before: seq<Chunk>, after: seq<Chunk>, env: nat -> Env)
    requires Asked(before, env) && (after == before || after == before + [env(|before|).chunk])
    ensures Asked(after, env)
  {
  }

  /** No fault in a coded body: the wire suffices for the framing, no chunk or trailer is malformed or
      without end, the compressed stream ends where the framing does, and what zlib makes stays within the caps. */
  ghost predicate Faultless(s: Stream, r: BodyReader, p: Pipe, wire: seq<Byte>, rc: Code)
    requires r.Fitted(p) && p.inflater != null
    reads r, r.dec, s, p, p.inflater
  {
    && (if r.dec == null then Framed(r.kind, wire, Ending(s.script)).Whole? else !r.Starving(s, rc) && !r.dec.Faulty())
    && !r.Unfinished(p, rc) && p.inflater.past == 0
    && !p.inflater.CapsNow().Over(|p.inflater.made|)
  }

  /** A faultless coded body is accepted if and only if it is not chunked, or its encoded form stays
      within the cap that is meant for the decoded one: the chunk decoder has been given it too. */
  lemma AcceptedIff(s: Stream, r: BodyReader, p: Pipe, all: seq<Byte>, rc: Code)
    requires r.Sound(s, p) && p.inflater != null && s.got + Bytes(s.script) == all
    requires if rc == Ok then r.Valid(s, p) && r.done else r.Excused(s, p, rc)
    requires Faultless(s, r, p, r.seed0 + all, rc)
    ensures rc == Ok <==> r.dec == null || p.maxBody == 0 || |r.dec.decoded| <= p.maxBody
  {
    if r.dec == null && rc != Ok && r.Starving(s, rc) {
      StarvingIsBroken(s, r, all, rc);
    }
  }

  /** With identity coding the sink holds what the chunk parser decoded if and only if none of the
      verdicts it was asked for was malformed, and otherwise the raw bytes behind it. */
  lemma SinkIsDecodedIff(s: Stream, r: BodyReader, p: Pipe, env: nat -> Env)
    requires r.Sound(s, p) && r.dec != null && p.inflater == null && p.sink.total == r.fed
    requires Asked(r.dec.verdicts, env)
    ensures p.sink.total == r.dec.decoded + r.dec.raw
    ensures p.sink.total == r.dec.decoded <==>
              forall j :: 0 <= j < |r.dec.verdicts| ==> !env(j).chunk.Malformed?
  {
    var vs := r.dec.verdicts;
    assert forall j :: 0 <= j < |vs| ==> vs[j] == env(j).chunk;
  }

  /** The i-th step, against the outside's i-th answers. */
  method StepAgainst(s: Stream, r: BodyReader, p: Pipe, env: nat -> Env, i: nat) returns (rc: Code)
    requires r.Valid(s, p) && !r.done
    requires r.dec != null ==> Asked(r.dec.verdicts, env) && (!r.dec.inTrailer ==> |r.dec.verdicts| == i)
    requires r.dec != null ==> Closed(r.dec.closing, env)
    modifies r, s, p, p.sink, p.sink.buffer, p.inflater, r.dec
    ensures r.Sound(s, p) && (rc == Ok ==> r.Valid(s, p) && r.Left(s) < old(r.Left(s)))
    ensures rc == Ok && r.done && p.inflater != null ==> p.inflater.finished || p.inflater.inTotal == 0
    ensures s.got + Bytes(s.script) == old(s.got + Bytes(s.script)) && Ending(s.script) == old(Ending(s.script))
    ensures p.sink.Grew()
    ensures AllCalm(env) && rc != Ok ==> r.Excused(s, p, rc)
    ensures AllCalm(env) && p.inflater == null && rc != BodyLimit ==> p.sink.total == r.fed
    ensures r.dec != null ==> Asked(r.dec.verdicts, env) && Closed(r.dec.closing, env)
    ensures r.dec != null && rc == Ok && !r.dec.inTrailer ==> |r.dec.verdicts| == i + 1
  {
    ghost var before := if r.dec == null then [] else r.dec.verdicts;
    assert AllCalm(env) ==> Calm(env(i));
    rc := r.Step(s, p, env(i));
    if r.dec != null {
      AskedOnce(before, r.dec.verdicts, env);
      assert env(i).trailer == env(i).trailer;
    }
  }

  /** Step after step, until the framing is through or a step fails. */
  method ReadSteps(s: Stream, r: BodyReader, p: Pipe, env: nat -> Env) returns (rc: Code)
    requires r.Valid(s, p) && !r.done && r.fed == [] && s.got == []
    requires r.dec != null ==> r.dec.verdicts == [] && !r.dec.inTrailer
    modifies r, s, p, p.sink, p.sink.buffer, p.inflater, r.dec
    ensures r.Sound(s, p) && (rc == Ok ==> r.Valid(s, p) && r.done)
    ensures s.got + Bytes(s.script) == old(Bytes(s.script)) && Ending(s.script) == old(Ending(s.script))
    ensures old(p.sink.buffer.data == p.sink.total) ==> p.sink.buffer.data == p.sink.total
    ensures rc == Ok && p.inflater != null ==> p.inflater.finished || p.inflater.inTotal == 0
    ensures AllCalm(env) && rc != Ok ==> r.Excused(s, p, rc)
    ensures AllCalm(env) && p.inflater == null && rc != BodyLimit ==> p.sink.total == r.fed
    ensures r.dec != null ==> Asked(r.dec.verdicts, env) && Closed(r.dec.closing, env)
  {
    rc := Ok;
    var i := 0;
    while rc == Ok && !r.done
      invariant r.Sound(s, p) && (rc == Ok ==> r.Valid(s, p))
      invariant rc == Ok && r.done && p.inflater != null ==> p.inflater.finished || p.inflater.inTotal == 0
      invariant s.got + Bytes(s.script) == old(Bytes(s.script)) && Ending(s.script) == old(Ending(s.script))
      invariant old(p.sink.buffer.data == p.sink.total) ==> p.sink.buffer.data == p.sink.total
      invariant AllCalm(env) && rc != Ok ==> r.Excused(s, p, rc)
      invariant AllCalm(env) && p.inflater == null && rc != BodyLimit ==> p.sink.total == r.fed
      invariant r.dec != null ==> Asked(r.dec.verdicts, env) && Closed(r.dec.closing, env)
      invariant r.dec != null && rc == Ok && !r.dec.inTrailer ==> |r.dec.verdicts| == i
      decreases rc == Ok, r.Left(s)
    {
      rc := StepAgainst(s, r, p, env, i);
      i := i + 1;
    }
  }

  /** What a read says of the body when nothing outside stood in the way. */
  lemma CalmRead(s: Stream, r: BodyReader, p: Pipe, env: nat -> Env, all: seq<Byte>, rc: Code)
    requires r.Sound(s, p) && (if rc == Ok then r.Valid(s, p) && r.done else r.Excused(s, p, rc))
    requires s.got + Bytes(s.script) == all
    requires p.inflater == null && rc != BodyLimit ==> p.sink.total == r.fed
    requires r.dec != null ==> Asked(r.dec.verdicts, env) && Closed(r.dec.closing, env)
    ensures rc == Parse && r.dec != null && !r.Starving(s, rc) ==>
              || (exists j :: 0 <= j < |r.dec.verdicts| && env(j).chunk.Malformed?)
              || (exists i :: env(i).trailer.BadTrailer?)
              || MAX_TRAILER <= r.dec.collected <= |r.seed0| + |s.got|
    ensures rc != Ok && r.dec == null && p.inflater == null && Fits(r.kind, r.seed0 + all, p.maxBody) ==>
              Framed(r.kind, r.seed0 + all, Ending(s.script)) == Broken(rc)
    ensures p.inflater != null && Faultless(s, r, p, r.seed0 + all, rc) ==>
              (rc == Ok <==> r.dec == null || p.maxBody == 0 || |r.dec.decoded| <= p.maxBody)
    ensures p.inflater == null && r.dec != null && rc != BodyLimit ==>
              (p.sink.total == r.dec.decoded <==>
                 forall j :: 0 <= j < |r.dec.verdicts| ==> !env(j).chunk.Malformed?)
  {
    if rc == Parse && r.dec != null && !r.Starving(s, rc) {
      MalformedForCause(s, r, p, env);
    }
    if rc != Ok && r.dec == null && p.inflater == null && Fits(r.kind, r.seed0 + all, p.maxBody) {
      FailsAsFramed(s, r, p, all, rc);
    }
    if p.inflater != null && Faultless(s, r, p, r.seed0 + all, rc) {
      AcceptedIff(s, r, p, all, rc);
    }
    if p.inflater == null && r.dec != null && rc != BodyLimit {
      SinkIsDecodedIff(s, r, p, env);
    }
  }

  /** Read a body to its end. A good read leaves in the sink the framed prefix of the wire, however
      the wire was split, or all that zlib made of it; for a chunked body what was framed is what
      the parser decoded. With nothing outside in the way the read fails for a reason that lies
      in the body: no such prefix, a verdict of the parsers or of zlib, or a cap. Under any
      framing, any coding and any outcome the sink never holds more than the cap. */
  method ReadBody(s: Stream, r: BodyReader, p: Pipe, env: nat -> Env) returns (rc: Code)
    requires r.Valid(s, p) && !r.done && r.fed == [] && s.got == []
    requires r.dec != null ==> r.dec.verdicts == [] && !r.dec.inTrailer
    modifies r, s, p, p.sink, p.sink.buffer, p.inflater, r.dec
    ensures r.Sound(s, p) && (rc == Ok ==> r.Valid(s, p) && r.done)
    ensures s.got + Bytes(s.script) == old(Bytes(s.script)) && Ending(s.script) == old(Ending(s.script))
    ensures old(p.sink.buffer.data == p.sink.total) ==> p.sink.buffer.data == p.sink.total
    ensures p.maxBody > 0 ==> p.sink.written <= p.maxBody
    ensures rc == Ok ==> Complete(r, p) && MessageBytes(r) + p.surplus == |r.seed0| + |s.got|
    ensures rc == Ok && p.inflater != null ==> p.inflater.finished || p.inflater.inTotal == 0
    ensures rc == Ok && r.dec == null ==>
              Framed(r.kind, r.seed0 + old(Bytes(s.script)), Ending(s.script)) == Whole(r.fed)
    ensures AllCalm(env) && rc != Ok ==> r.Excused(s, p, rc)
    ensures AllCalm(env) && p.inflater == null && rc != BodyLimit ==> p.sink.total == r.fed
    ensures r.dec != null ==> Asked(r.dec.verdicts, env) && Closed(r.dec.closing, env)
    ensures AllCalm(env) && rc == Parse && r.dec != null && !r.Starving(s, rc) ==>
              || (exists j :: 0 <= j < |r.dec.verdicts| && env(j).chunk.Malformed?)
              || (exists i :: env(i).trailer.BadTrailer?)
              || MAX_TRAILER <= r.dec.collected <= |r.seed0| + |s.got|
    ensures var wire := r.seed0 + old(Bytes(s.script));
            AllCalm(env) && rc != Ok && r.dec == null && p.inflater == null && Fits(r.kind, wire, p.maxBody) ==>
              Framed(r.kind, wire, Ending(s.script)) == Broken(rc)
    ensures AllCalm(env) && p.inflater != null && Faultless(s, r, p, r.seed0 + old(Bytes(s.script)), rc) ==>
              (rc == Ok <==> r.dec == null || p.maxBody == 0 || |r.dec.decoded| <= p.maxBody)
    ensures AllCalm(env) && p.inflater == null && r.dec != null && rc != BodyLimit ==>
              (p.sink.total == r.dec.decoded <==>
                 forall j :: 0 <= j < |r.dec.verdicts| ==> !env(j).chunk.Malformed?)
  {
    ghost var all := Bytes(s.script);
    rc := ReadSteps(s, r, p, env);
    if rc == Ok {
      DoneIsWhole(s, r, p, all);
    }
    if AllCalm(env) {
      CalmRead(s, r, p, env, all, rc);
    }
  }

  // ---- exactly the cap ----

  /** A coded body refused for the limit, when it is not chunked, does decode to more. */
  lemma RefusedIsOver(s: Stream, r: BodyReader, p: Pipe)
    requires r.Sound(s, p) && p.inflater != null && r.dec == null && Ending(s.script) != Fail(BodyLimit)
    requires r.Excused(s, p, BodyLimit)
    ensures p.inflater.CapsNow().Over(|p.inflater.made|)
  {
  }

  /** Such a body: ten bytes that gzip makes thirty of, under a cap of ten. As a chunk it is
      refused; the same thirty bytes, not chunked, inflate to all ten. */
  method TenBytesRefusedOnlyWhenChunked() returns (chunked: Code, plain: Code, out: seq<Byte>)
    ensures chunked == BodyLimit && plain == Ok && |out| == 10
  {
    var encoded: seq<Byte> := seq(30, i => 31);
    var wire: seq<Byte> := seq(36, i => 31);
    var dec := new Chunked(10);
    var ignored;
    chunked, ignored := dec.Decode(wire, More(encoded), PartTrailer);
    var z := new Inflater(Gzip, Limits(10, 0));
    var ten: seq<Byte> := seq(10, i => 88);
    ghost var h, k, job;
    job := z.StartNow().MainJob(30, [], 0, [Answer(ZStreamEnd, 30, ten, true, true)]);
    assert job.At(0).ret == ZStreamEnd && job.Left(0) == 30 && job.Left(1) == 0;
    assert job.Made(0) == [] && job.Output(0) == ten && job.Made(1) == ten;
    plain, out, h, k := z.Run(encoded, true, true, [], [Answer(ZStreamEnd, 30, ten, true, true)]);
    assert !job.GoesOn(0, true);
    NeverPast(job, k - 1);
  }

  lemma {:induction false} NeverPast(j: Job, n: nat)
    requires !j.GoesOn(0, true) && j.Goes(n, true)
    ensures n == 0
  {
    if n > 1 {
      NeverPast(j, n - 1);
    }
  }

  /** Malformed bytes just read, with identity coding, no cap and nothing outside in the way: they are
      delivered as they are, and then refused. */
  method AbsorbMalformed(s: Stream, r: BodyReader, p: Pipe, bytes: seq<Byte>, e: Env) returns (rc: Code)
    requires !r.done && r.dec != null && bytes != [] && r.Fitted(p) && Proper(s.script)
    requires p.Valid() && p.Lossless() && r.Passed(p) && r.dec.Valid() && r.fed == r.dec.decoded
    requires p.surplus == 0 && r.seed == [] && r.dec.wire == p.rawSeen
    requires p.rawSeen + |bytes| == |r.seed0| + |s.got|
    requires !r.dec.inTrailer && e.chunk.Malformed? && Calm(e) && p.inflater == null && p.maxBody == 0
    modifies r`fed, r`seed, r`done, p, p.sink, p.sink.buffer, r.dec
    ensures rc == Parse && p.sink.total == old(p.sink.total) + bytes && p.sink.Grew()
  {
    rc := r.AbsorbChunk(s, p, e, bytes);
    assert r.dec.decoded == old(r.dec.decoded);
    assert p.sink.total == r.fed == old(r.fed) + bytes;
  }

  /** One malformed byte that reaches the sink. */
  method MalformedReachesTheSink() returns (rc: Code, sunk: seq<Byte>)
    ensures rc == Parse && sunk == [88]
  {
    var s := new Stream([Data([88])]);
    var buffer := new Buffer();
    var sink := new Sink(buffer);
    var p := new Pipe(sink, null, 0);
    var dec := new Chunked(0);
    var r := new BodyReader(ChunkedBody, [], dec);
    var read := s.Next();
    rc := AbsorbMalformed(s, r, p, [88], Env(true, true, [], [], Ok, Malformed, BadTrailer));
    sunk := buffer.data;
    assert sunk[0..] == sunk && [] + sunk == sunk && sink.total == [] + sunk[0..];
  }
}
