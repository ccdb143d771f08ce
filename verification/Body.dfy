/** What a response body passes through: a stream, an oracle that splits its bytes into reads as it
    likes; the pipe, with or without a decoder; and the sink. */
module Body {
  import opened Base
  import opened Inflate

  // ---- the stream ----

  datatype Read = Data(bytes: seq<Byte>) | Eof | Fail(code: Code)

  predicate Proper(script: seq<Read>)
  {
    forall i :: 0 <= i < |script| ==>
      (script[i].Data? ==> 0 < |script[i].bytes| <= READ_CHUNK) && (script[i].Fail? ==> script[i].code != Ok)
  }

  /** All a stream will ever yield: the bytes before its first end or error. */
  function Bytes(script: seq<Read>): seq<Byte>
  {
    if script == [] || !script[0].Data? then [] else script[0].bytes + Bytes(script[1..])
  }

  /** How it ends. A script that runs out has reached the end of the stream. */
  function Ending(script: seq<Read>): (e: Read)
    ensures !e.Data?
  {
    if script == [] then Eof else if script[0].Data? then Ending(script[1..]) else script[0]
  }

  /** Reads that each yield one of these pieces. */
  function Reads(pieces: seq<seq<Byte>>): seq<Read>
  {
    if pieces == [] then [] else [Data(pieces[0])] + Reads(pieces[1..])
  }

  lemma BytesFirst(data: seq<Byte>, rest: seq<Read>)
    ensures Bytes([Data(data)] + rest) == data + Bytes(rest) && Ending([Data(data)] + rest) == Ending(rest)
  {
    assert ([Data(data)] + rest)[1..] == rest;
  }

  lemma {:induction false} BytesAhead(pieces: seq<seq<Byte>>, tail: seq<Read>)
    ensures Bytes(Reads(pieces) + tail) == Flatten(pieces) + Bytes(tail)
    ensures Ending(Reads(pieces) + tail) == Ending(tail)
  {
    if pieces == [] {
      assert Reads(pieces) + tail == tail;
    } else {
      BytesAhead(pieces[1..], tail);
      BytesFirst(pieces[0], Reads(pieces[1..]) + tail);
      Regroup([Data(pieces[0])], Reads(pieces[1..]), tail);
      Regroup(pieces[0], Flatten(pieces[1..]), Bytes(tail));
    }
  }

  /** However the bytes are split, a stream yields all of them in order up to its first end or error;
      that is how it ends, and nothing behind it counts. */
  lemma BytesAreAllPieces(pieces: seq<seq<Byte>>, end: Read, rest: seq<Read>)
    requires !end.Data?
    ensures var script := Reads(pieces) + ([end] + rest);
            Bytes(script) == Flatten(pieces) && Ending(script) == end
    ensures Bytes(Reads(pieces)) == Flatten(pieces) && Ending(Reads(pieces)) == Eof
  {
    BytesAhead(pieces, [end] + rest);
    BytesAhead(pieces, []);
    assert Reads(pieces) + [] == Reads(pieces) && Flatten(pieces) + [] == Flatten(pieces);
  }

  class Stream {
    var script: seq<Read>
    ghost var got: seq<Byte>

    constructor (script: seq<Read>)
      ensures this.script == script && got == []
    {
      this.script, got := script, [];
    }

    method Next() returns (r: Read)
      requires Proper(script)
      modifies this
      ensures Proper(script)
      ensures Ending(script) == old(Ending(script))
      ensures got + Bytes(script) == old(got + Bytes(script))
      ensures r.Data? ==> got == old(got) + r.bytes && 0 < |r.bytes| <= READ_CHUNK && |script| < old(|script|)
      ensures !r.Data? ==> script == old(script) && got == old(got) && Bytes(script) == [] && r == Ending(script)
      ensures r.Fail? ==> r.code != Ok
    {
      if script == [] {
        return Eof;
      }
      r := script[0];
      if r.Data? {
        assert old(got) + (r.bytes + Bytes(script[1..])) == old(got) + r.bytes + Bytes(script[1..]);
        script, got := script[1..], got + r.bytes;
      }
    }

    /** Start counting anew: what was received so far has been accounted for. */
    ghost method Mark()
      modifies this`got
      ensures got == []
    {
      got := [];
    }
  }

  // ---- the sink and the pipe ----

  /** A growable buffer; a memory sink appends to one, and a pulled body drains it. */
  class Buffer {
    var data: seq<Byte>

    constructor ()
      ensures data == []
    {
      data := [];
    }
  }

  /** Where decoded bytes go. `total` is everything the sink ever accepted. */
  class Sink {
    const buffer: Buffer
    var written: nat
    ghost var total: seq<Byte>

    ghost predicate Valid()
      reads this
    {
      written == |total|
    }

    constructor (buffer: Buffer)
      ensures Valid() && this.buffer == buffer && written == 0 && total == []
    {
      this.buffer := buffer;
      written, total := 0, [];
    }

    /** Whatever was added to the total was added to the buffer. */
    twostate predicate Grew()
      reads this, buffer
    {
      && old(buffer.data) <= buffer.data
      && total == old(total) + buffer.data[|old(buffer.data)|..]
    }

    method Write(data: seq<Byte>, accept: Code) returns (rc: Code)
      requires Valid()
      modifies this, buffer
      ensures Valid()
      ensures rc == if data == [] then Ok else accept
      ensures total == old(total) + (if rc == Ok then data else [])
      ensures buffer.data == old(buffer.data) + (if rc == Ok then data else []) && Grew()
    {
      if data == [] {
        assert total + data == total && buffer.data + data == buffer.data;
        return Ok;
      }
      rc := accept;
      if rc == Ok {
        buffer.data := buffer.data + data;
        written, total := written + |data|, total + data;
      }
    }
  }

  /** What the environment answers during one step: zlib's behaviour, the sink's reply, and the
      chunk and trailer parsers' verdicts. */
  datatype Env = Env(reset: bool, initOk: bool, header: seq<Answer>, script: seq<Answer>,
                     accept: Code, chunk: Chunk, trailer: Trailer)

  /** Nothing outside stands in the way: the sink accepts, zlib finds no fault, memory suffices. */
  predicate Calm(e: Env)
  {
    e.accept == Ok && e.reset && e.initOk && Willing(e.header) && Willing(e.script)
  }

  /** An outside that never stands in the way. */
  ghost predicate AllCalm(env: nat -> Env)
  {
    forall i :: Calm(env(i))
  }

  class Pipe {
    const maxBody: nat
    const sink: Sink
    const inflater: Inflater?
    var rawSeen: nat
    var surplus: nat

    /** No byte past the cap has been given to the sink, whatever the coding, and with a decoder
        none that zlib did not produce. */
    ghost predicate Valid()
      reads this, sink, inflater
    {
      && sink.Valid()
      && (inflater == null ==> maxBody > 0 ==> sink.written <= maxBody)
      && (inflater != null ==>
            && inflater.Valid() && inflater.limits.maxOut == maxBody
            && sink.total <= inflater.passed)
    }

    /** Nothing has been lost so far: the sink holds all that was produced, and no input has been
        refused. */
    ghost predicate Lossless()
      reads this, sink, inflater
    {
      inflater != null ==> sink.total == inflater.passed == inflater.made && inflater.past == 0
    }

    /** A refusal that the body itself calls for, when the pipe was handed `fed` in all: it
        passes a cap, or it has data after the end of its compressed stream. */
    ghost predicate Refuses(rc: Code, fed: seq<Byte>)
      reads this, sink, inflater
    {
      if inflater == null then rc == BodyLimit && maxBody > 0 && |fed| > maxBody
      else
        || (rc == BodyLimit && inflater.CapsNow().Over(|inflater.made|))
        || (rc == BodyDecode && inflater.past > 0)
    }

    constructor (sink: Sink, inflater: Inflater?, maxBody: nat)
      requires sink.Valid() && sink.written == 0
      requires inflater != null ==>
        inflater.Valid() && inflater.limits.maxOut == maxBody && inflater.made == [] && inflater.past == 0
      ensures Valid() && Lossless()
      ensures this.sink == sink && this.inflater == inflater && this.maxBody == maxBody
      ensures rawSeen == 0 && surplus == 0
    {
      this.sink, this.inflater, this.maxBody := sink, inflater, maxBody;
      rawSeen, surplus := 0, 0;
    }

    /** Pass bytes on. A body at its cap is refused before the sink is written to; of coded bytes the
        sink gets what zlib makes of them, all of it and nothing else. */
    method Feed(data: seq<Byte>, e: Env, ghost fed: seq<Byte>) returns (rc: Code)
      requires Valid() && Lossless()
      requires inflater == null ==> |fed| == sink.written
      modifies sink, sink.buffer, inflater
      ensures Valid()
      ensures rc == Ok ==> Lossless()
      ensures inflater == null ==>
                rc == (if data == [] then Ok
                       else if maxBody > 0 && old(sink.written) + |data| > maxBody then BodyLimit
                       else e.accept)
      ensures inflater == null ==> sink.total == old(sink.total) + (if rc == Ok then data else [])
      ensures inflater != null && rc == Ok ==> inflater.inTotal == Cast(old(inflater.inTotal) + |data|, SPAN)
      ensures Calm(e) && rc != Ok ==> Refuses(rc, fed + data)
      ensures sink.Grew()
    {
      if data == [] {
        assert sink.total + data == sink.total;
        return Ok;
      }
      if inflater == null {
        if maxBody > 0 && sink.written + |data| > maxBody {
          return BodyLimit;
        }
        rc := sink.Write(data, e.accept);
        return;
      }
      rc := FeedCoded(data, e);
    }

    /** Inflate into the staging buffer, and hand over what is there. */
    method FeedCoded(data: seq<Byte>, e: Env) returns (rc: Code)
      requires Valid() && Lossless() && inflater != null
      modifies sink, sink.buffer, inflater
      ensures Valid()
      ensures rc == Ok ==> Lossless() && inflater.inTotal == Cast(old(inflater.inTotal) + |data|, SPAN)
      ensures e.accept == Ok && rc == BodyLimit ==> inflater.CapsNow().Over(|inflater.made|)
      ensures Calm(e) && rc != Ok ==>
        rc == BodyLimit || (rc == BodyDecode && 0 < inflater.past <= |data|)
      ensures sink.Grew()
    {
      ghost var start := inflater.StartNow();
      var staged;
      ghost var h, k;
      rc, staged, h, k := inflater.Run(data, e.reset, e.initOk, e.header, e.script);
      RunBlames(start, |data|, e.header, h, e.script, k, inflater.enc == Gzip, rc);
      if rc == Ok || rc == WouldBlock {
        rc := sink.Write(staged, e.accept);
      }
    }

    /** The framing is through; with a decoder the compressed stream must have ended as well,
        unless nothing was ever fed. */
    method Finish() returns (rc: Code)
      requires Valid()
      ensures rc == if inflater == null || inflater.finished || inflater.inTotal == 0 then Ok else BodyDecode
    {
      if inflater == null {
        return Ok;
      }
      rc := inflater.Finish();
    }
  }

  // ---- chunked bookkeeping ----

  /** The chunk parser on one buffer: malformed, more to come, or the last chunk seen with some
      bytes left over after it. */
  datatype Chunk = Malformed | More(decoded: seq<Byte>) | Last(decoded: seq<Byte>, left: nat)

  /** The trailer parser on what has been collected: malformed, incomplete, or ended after `used`. */
  datatype Trailer = BadTrailer | PartTrailer | WholeTrailer(used: nat)

  const MAX_TRAILER: nat := 65536

  /** Decoding happens in place, so there is never more output than input. */
  function Decoded(c: Chunk, buf: seq<Byte>): (r: seq<Byte>)
    requires !c.Malformed?
    ensures |c.decoded| <= |buf| ==> r == c.decoded
    ensures |r| <= |buf|
  {
    c.decoded[..Min(|c.decoded|, |buf|)]
  }

  /** What follows the last chunk in its buffer. */
  function AfterLast(c: Chunk, buf: seq<Byte>): (tail: seq<Byte>)
    requires !c.Malformed?
    ensures |tail| <= |buf| && tail == buf[|buf| - |tail|..]
    ensures c.Last? && |c.decoded| + c.left <= |buf| ==> |tail| == c.left
    ensures c.More? ==> tail == []
  {
    if c.Last? then buf[|buf| - Min(c.left, |buf| - |Decoded(c, buf)|)..] else []
  }

  /** The verdict on n trailer bytes collected so far, of which the parser says t: none are no
      section yet, an incomplete one waits for more unless it has reached the size limit, and one
      past the limit is refused unread. */
  predicate Judged(n: nat, t: Trailer, rc: Code)
  {
    && (rc == Ok <==> 0 < n <= MAX_TRAILER && t.WholeTrailer?)
    && (rc == WouldBlock <==> n == 0 || (n < MAX_TRAILER && t.PartTrailer?))
    && (rc == Parse <==> n > MAX_TRAILER || (n > 0 && t.BadTrailer?) || (n == MAX_TRAILER && t.PartTrailer?))
  }

  /** Verdicts none of which found fault. */
  predicate NoneMalformed(verdicts: seq<Chunk>)
  {
    forall j :: 0 <= j < |verdicts| ==> !verdicts[j].Malformed?
  }

  /** Bytes held, total decoded, and what followed the message. */
  class Chunked {
    const maxTotal: nat
    var inTrailer: bool
    var tbuf: seq<Byte>
    var total: nat
    var surplus: nat
    /** What the parser decoded, and raw bytes left in place of a decoding. */
    ghost var decoded: seq<Byte>
    ghost var raw: seq<Byte>
    /** Every verdict the chunk parser has given. */
    ghost var verdicts: seq<Chunk>
    /** Wire bytes that belong to the message so far, and all of them. */
    ghost var message: nat
    ghost var wire: nat
    /** Trailer bytes collected, and what the trailer parser said last. */
    ghost var collected: nat
    ghost var closing: Trailer

    /** What there is to refuse: malformed chunks, a malformed trailer section, or one that has
        reached the limit without an end. */
    ghost predicate Faulty()
      reads this
    {
      || !NoneMalformed(verdicts) || closing.BadTrailer?
      || collected > MAX_TRAILER || (collected == MAX_TRAILER && closing.PartTrailer?)
    }

    /** The last chunk has been seen, and the end of the trailer section behind it. */
    ghost predicate Ended()
      reads this
    {
      verdicts != [] && verdicts[|verdicts| - 1].Last? && closing.WholeTrailer?
    }

    /** Bytes are the message's, or held to be parsed, and of those no more than the limit; the
        budget covers the decoded total. */
    ghost predicate Valid()
      reads this
    {
      && message + |tbuf| == wire && |tbuf| <= MAX_TRAILER && (!inTrailer ==> tbuf == [])
      && total == |decoded| && (maxTotal > 0 ==> total <= maxTotal)
      && (inTrailer <==> verdicts != [] && verdicts[|verdicts| - 1].Last?)
      && raw == [] && collected == |tbuf| && closing.PartTrailer? && !Faulty()
    }

    constructor (maxTotal: nat)
      ensures Valid() && this.maxTotal == maxTotal && wire == 0 && !inTrailer && decoded == [] && verdicts == []
    {
      this.maxTotal := maxTotal;
      inTrailer, tbuf, total, surplus := false, [], 0, 0;
      message, wire, decoded, raw, verdicts := 0, 0, [], [], [];
      collected, closing := 0, PartTrailer;
    }

    /** Add to the trailer section and parse what has been collected. */
    method CollectTrailer(more: seq<Byte>, t: Trailer) returns (rc: Code)
      requires |tbuf| <= MAX_TRAILER
      modifies this`surplus, this`message, this`tbuf, this`collected, this`closing
      ensures collected == old(|tbuf|) + |more| && Judged(collected, t, rc)
      ensures closing == if 0 < collected <= MAX_TRAILER then t else old(closing)
      ensures rc == WouldBlock ==> message == old(message) && tbuf == old(tbuf) + more && |tbuf| <= MAX_TRAILER
      ensures rc == Ok ==> message + surplus == old(message + |tbuf|) + |more|
      ensures rc == Ok ==> surplus == collected - Min(t.used, collected)
    {
      collected := |tbuf| + |more|;
      if |tbuf| + |more| > MAX_TRAILER {
        return Parse;
      }
      tbuf := tbuf + more;
      if tbuf == [] {
        return WouldBlock;
      }
      closing := t;
      match t
      case BadTrailer =>
        return Parse;
      case PartTrailer =>
        return if |tbuf| >= MAX_TRAILER then Parse else WouldBlock;
      case WholeTrailer(used) =>
        var n := Min(used, |tbuf|);
        surplus := |tbuf| - n;
        message, tbuf := message + n, [];
        return Ok;
    }

    /** Decode one buffer in place. `out` is what the caller finds at its front afterwards: the
        decoded bytes, nothing inside the trailer, and on malformed input the raw bytes, since
        the length is left as it came in. The budget is checked on every decoded byte, and a
        malformed or endless section is the only other refusal. */
    method Decode(buf: seq<Byte>, c: Chunk, t: Trailer) returns (rc: Code, out: seq<Byte>)
      requires Valid() && buf != []
      modifies this
      ensures wire == old(wire) + |buf|
      ensures out == if old(inTrailer) then [] else if c.Malformed? then buf else Decoded(c, buf)
      ensures old(inTrailer) || c.Malformed? ==> decoded == old(decoded)
      ensures !(old(inTrailer) || c.Malformed?) ==> decoded == old(decoded) + out
      ensures raw == if !old(inTrailer) && c.Malformed? then buf else []
      ensures verdicts == old(verdicts) + if old(inTrailer) then [] else [c]
      ensures raw == [] <==> NoneMalformed(verdicts)
      ensures old(inTrailer) ==> inTrailer
      ensures rc == BodyLimit <==>
        !old(inTrailer) && !c.Malformed? && maxTotal > 0 && |decoded| > maxTotal
      ensures old(inTrailer) ==> collected == old(|tbuf|) + |buf|
      ensures !old(inTrailer) ==>
        collected == if !c.Malformed? && rc != BodyLimit then |AfterLast(c, buf)| else 0
      ensures old(inTrailer) || (c.Last? && rc != BodyLimit) ==> Judged(collected, t, rc)
      ensures !old(inTrailer) && rc != BodyLimit ==> (c.Malformed? ==> rc == Parse) && (c.More? ==> rc == WouldBlock)
      ensures rc == Parse <==> Faulty()
      ensures rc == Parse ==>
        (!old(inTrailer) && c.Malformed?) || t.BadTrailer? || old(|tbuf|) + |buf| >= MAX_TRAILER
      ensures closing == old(closing) || closing == t
      ensures rc == WouldBlock ==> Valid()
      ensures rc == Ok ==> message + surplus == wire && raw == [] && surplus == collected - Min(t.used, collected)
      ensures rc == Ok ==> Ended()
    {
      if inTrailer {
        assert verdicts + [] == verdicts;
        wire := wire + |buf|;
        rc := MoreTrailer(buf, t);
        return rc, [];
      }
      if c.Malformed? {
        wire, verdicts, raw := wire + |buf|, verdicts + [c], buf;
        assert verdicts[|verdicts| - 1] == c;
        return Parse, buf;
      }
      rc, out := DecodeChunk(buf, c, t);
    }

    /** Past the last chunk, with n bytes received that are not among those collected. */
    ghost predicate Expecting(n: nat)
      reads this
    {
      && inTrailer && verdicts != [] && verdicts[|verdicts| - 1].Last? && NoneMalformed(verdicts)
      && total == |decoded| && (maxTotal > 0 ==> total <= maxTotal) && raw == []
      && message + |tbuf| + n == wire && collected == |tbuf| < MAX_TRAILER && closing.PartTrailer?
    }

    /** Behind the last chunk come the trailer section and then what follows the message. */
    method MoreTrailer(more: seq<Byte>, t: Trailer) returns (rc: Code)
      requires Expecting(|more|)
      modifies this`surplus, this`message, this`tbuf, this`collected, this`closing
      ensures collected == old(|tbuf|) + |more|
      ensures Judged(collected, t, rc) && (rc == Parse <==> Faulty())
      ensures closing == old(closing) || closing == t
      ensures rc == WouldBlock ==> Valid()
      ensures rc == Ok ==> message + surplus == wire && surplus == collected - Min(t.used, collected) && Ended()
    {
      rc := CollectTrailer(more, t);
    }

    /** Charge decoded bytes to the budget. */
    method Count(out: seq<Byte>, ghost c: Chunk) returns (over: bool)
      requires Valid() && !c.Malformed?
      modifies this`decoded, this`total, this`verdicts
      ensures decoded == old(decoded) + out
      ensures verdicts == old(verdicts) + [c] && NoneMalformed(verdicts) && verdicts[|verdicts| - 1] == c
      ensures over <==> maxTotal > 0 && |decoded| > maxTotal
      ensures !over ==> total == |decoded|
    {
      decoded, verdicts := decoded + out, verdicts + [c];
      if maxTotal > 0 {
        var remaining := if maxTotal >= total then maxTotal - total else 0;
        if |out| > remaining {
          return true;
        }
      }
      total := total + |out|;
      return false;
    }

    method DecodeChunk(buf: seq<Byte>, c: Chunk, t: Trailer) returns (rc: Code, out: seq<Byte>)
      requires Valid() && !inTrailer && !c.Malformed? && buf != []
      modifies this
      ensures wire == old(wire) + |buf| && raw == []
      ensures out == Decoded(c, buf) && decoded == old(decoded) + out
      ensures verdicts == old(verdicts) + [c] && NoneMalformed(verdicts)
      ensures rc == BodyLimit <==> maxTotal > 0 && |decoded| > maxTotal
      ensures collected == if rc != BodyLimit then |AfterLast(c, buf)| else 0
      ensures rc != BodyLimit ==> if c.Last? then Judged(collected, t, rc) else rc == WouldBlock
      ensures rc == Parse <==> Faulty()
      ensures closing == old(closing) || closing == t
      ensures rc == WouldBlock ==> Valid()
      ensures rc == Ok ==> message + surplus == wire && surplus == collected - Min(t.used, collected) && Ended()
    {
      out := c.decoded[..Min(|c.decoded|, |buf|)];
      var over := Count(out, c);
      wire := wire + |buf|;
      if over {
        return BodyLimit, out;
      }
      var left := if c.Last? then Min(c.left, |buf| - |out|) else 0;
      message := message + |buf| - left;
      if !c.Last? {
        return WouldBlock, out;
      }
      inTrailer := true;
      rc := MoreTrailer(buf[|buf| - left..], t);
    }
  }
}
