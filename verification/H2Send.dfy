/** The HTTP/2 request body: the data provider nghttp2 calls as the peer's window opens, from a
    buffer the caller lent or from a source that yields pieces. */
module H2Send {
  import opened Base

  /** What a streamed source will answer: pieces, then its end or a failure. An empty piece is
      its end. */
  datatype Source = Ended | Broken | Piece(data: seq<Byte>, rest: Source)

  /** The body a source stands for: its pieces up to the end. */
  function Total(s: Source): seq<Byte>
  {
    if s.Piece? && s.data != [] then s.data + Total(s.rest) else []
  }

  /** A source that ends rather than fails. */
  predicate Complete(s: Source)
  {
    match s
    case Ended => true
    case Broken => false
    case Piece(d, rest) => d == [] || Complete(rest)
  }

  class Provider {
    const streamed: bool
    var body: seq<Byte>
    var bodyOff: nat
    var owned: bool
    var bodySent: nat
    var source: Source
    var srcData: seq<Byte>
    var srcOff: nat
    var srcEnd: bool
    var srcFailed: bool
    ghost const request: seq<Byte>
    ghost const whole: bool
    ghost var emitted: seq<Byte>
    ghost var asks: nat

    /** What has gone out and what is still held make up the request body, in order. */
    ghost predicate Valid()
      reads this
    {
      && bodySent == |emitted|
      && bodyOff <= |body| && srcOff <= |srcData|
      && (!streamed ==> emitted + body[bodyOff..] == request && whole)
      && (streamed ==>
            && emitted + srcData[srcOff..] + Ahead() == request
            && whole == (srcEnd || (!srcFailed && Complete(source))))
      && !(srcEnd && srcFailed)
    }

    /** What the source has still to yield. */
    ghost function Ahead(): seq<Byte>
      reads this
    {
      if srcEnd then [] else Total(source)
    }

    constructor Lent(body: seq<Byte>)
      ensures Valid() && !streamed && request == body && emitted == [] && !srcFailed
    {
      this.streamed, this.body, bodyOff, owned, bodySent := false, body, 0, false, 0;
      source, srcData, srcOff, srcEnd, srcFailed := Ended, [], 0, false, false;
      request, whole, emitted, asks := body, true, [], 0;
    }

    constructor Streaming(source: Source)
      ensures Valid() && streamed && request == Total(source) && whole == Complete(source)
      ensures emitted == [] && !srcFailed && !srcEnd
    {
      streamed, body, bodyOff, owned, bodySent := true, [], 0, false, 0;
      this.source, srcData, srcOff, srcEnd, srcFailed := source, [], 0, false, false;
      request, whole, emitted, asks := Total(source), Complete(source), [], 0;
    }

    /** Ask the source until there is something to send, it ends, or it fails. */
    method Fetch()
      requires Valid() && streamed && !srcFailed
      modifies this`source, this`srcData, this`srcOff, this`srcEnd, this`srcFailed, this`asks
      ensures Valid()
      ensures !srcFailed ==> srcOff < |srcData| || srcEnd
      ensures old(srcEnd) || old(srcOff) < old(|srcData|) ==> asks == old(asks) && !srcFailed
    {
      while srcOff == |srcData| && !srcEnd && !srcFailed
        invariant Valid()
        invariant old(srcEnd) || old(srcOff) < old(|srcData|) ==>
          && asks == old(asks) && !srcFailed
          && srcOff == old(srcOff) && srcData == old(srcData) && srcEnd == old(srcEnd)
        decreases source, !srcEnd, !srcFailed
      {
        asks := asks + 1;
        assert srcData[srcOff..] == [];
        if source.Broken? {
          srcFailed := true;
        } else if source.Ended? || source.data == [] {
          srcEnd := true;
        } else {
          assert emitted + [] + (source.data + Total(source.rest)) == emitted + source.data + Total(source.rest);
          srcData, srcOff, source := source.data, 0, source.rest;
        }
      }
    }

    method SourceChunk(n: nat) returns (chunk: seq<Byte>, eof: bool, failed: bool)
      requires Valid() && streamed && !srcFailed
      modifies this
      ensures Valid() && failed == srcFailed
      ensures emitted == old(emitted) + chunk && |chunk| <= n
      ensures failed ==> chunk == [] && !eof
      ensures eof <==> !failed && emitted == request && srcEnd
      ensures old(srcEnd) ==> asks == old(asks)
      ensures n > 0 && !eof && !failed ==> chunk != []
    {
      Fetch();
      if srcFailed {
        return [], false, true;
      }
      var k := Min(n, |srcData| - srcOff);
      chunk := srcData[srcOff..srcOff + k];
      Advanced(emitted, srcData, srcOff, k, Ahead());
      srcOff := srcOff + k;
      bodySent := bodySent + k;
      emitted := emitted + chunk;
      eof := srcEnd && srcOff == |srcData|;
      AllSent(emitted, srcData, srcOff, Ahead(), request);
      return chunk, eof, false;
    }

    method LentChunk(n: nat) returns (chunk: seq<Byte>, eof: bool)
      requires Valid() && !streamed
      modifies this`bodyOff, this`bodySent, this`emitted
      ensures Valid()
      ensures emitted == old(emitted) + chunk && |chunk| <= n
      ensures eof <==> emitted == request
      ensures n > 0 && !eof ==> chunk != []
    {
      var k := Min(n, |body| - bodyOff);
      chunk := body[bodyOff..bodyOff + k];
      Advanced(emitted, body, bodyOff, k, []);
      bodyOff := bodyOff + k;
      bodySent := bodySent + k;
      emitted := emitted + chunk;
      eof := bodyOff == |body|;
      AllSent(emitted, body, bodyOff, [], request);
    }

    /** One call of the provider with a window of n bytes. EOF comes with the last byte of a lent
        body, and with the empty piece that ends a source; a source that has ended is not asked
        again. */
    method BodySource(n: nat) returns (chunk: seq<Byte>, eof: bool, failed: bool)
      requires Valid() && !srcFailed
      modifies this
      ensures Valid() && failed == srcFailed
      ensures emitted == old(emitted) + chunk && |chunk| <= n
      ensures failed ==> chunk == [] && !eof && !whole
      ensures eof <==> !failed && emitted == request && (streamed ==> srcEnd)
      ensures old(srcEnd) ==> asks == old(asks)
      ensures n > 0 && !eof && !failed ==> chunk != []
    {
      if streamed {
        chunk, eof, failed := SourceChunk(n);
      } else {
        chunk, eof := LentChunk(n);
        failed := false;
      }
    }

    /** Copy the unsent part of a lent body, for a response that is read after the loan ends. Where
        the bytes live changes; what will be sent does not. Afterwards nothing that is still to be
        sent is on loan, unless memory ran out. */
    method OwnBody(closed: bool, memory: bool) returns (rc: Code)
      requires Valid()
      modifies this`body, this`bodyOff, this`owned
      ensures Valid()
      ensures body[bodyOff..] == old(body[bodyOff..])
      ensures rc == if closed || streamed || old(owned) || old(bodyOff) == old(|body|) || memory then Ok else NoMem
      ensures rc == Ok && !closed && !streamed ==> owned || bodyOff == |body|
      ensures owned != old(owned) ==> rc == Ok && !closed && !streamed && old(bodyOff) < old(|body|)
    {
      if closed || streamed || owned || bodyOff == |body| {
        return Ok;
      }
      if !memory {
        return NoMem;
      }
      body := body[bodyOff..];
      bodyOff := 0;
      owned := true;
      return Ok;
    }
  }

  lemma Advanced(sent: seq<Byte>, held: seq<Byte>, off: nat, k: nat, tail: seq<Byte>)
    requires off + k <= |held|
    ensures sent + held[off..] + tail == sent + held[off..off + k] + held[off + k..] + tail
    ensures sent + held[off..] == sent + held[off..off + k] + held[off + k..]
  {
    assert held[off..] == held[off..off + k] + held[off + k..];
  }

  lemma AllSent(sent: seq<Byte>, held: seq<Byte>, off: nat, tail: seq<Byte>, whole: seq<Byte>)
    requires off <= |held|
    requires sent + held[off..] + tail == whole || (tail == [] && sent + held[off..] == whole)
    ensures sent == whole <==> off == |held| && tail == []
  {
    assert |sent| + |held[off..]| + |tail| == |whole|;
    if off == |held| && tail == [] {
      assert sent + held[off..] == sent;
      assert sent + tail == sent;
    }
  }

  /** What happens to a provider: nghttp2 opens a window, or the body changes hands. */
  datatype Event = Window(n: nat) | Own(closed: bool, memory: bool)

  /** nghttp2's side: it calls until the end or a failure, with whatever windows it likes. */
  method Drive(p: Provider, events: seq<Event>) returns (chunks: seq<seq<Byte>>, eof: bool, failed: bool)
    requires p.Valid() && !p.srcFailed && p.emitted == []
    modifies p
    ensures p.Valid() && p.bodySent == |Flatten(chunks)|
    ensures Flatten(chunks) <= p.request
    ensures eof ==> Flatten(chunks) == p.request && p.whole
    ensures failed ==> !p.whole
  {
    chunks, eof, failed := [], false, false;
    var i := 0;
    while i < |events| && !eof && !failed
      invariant 0 <= i <= |events| && p.Valid() && p.srcFailed == failed
      invariant Flatten(chunks) == p.emitted
      invariant eof ==> p.emitted == p.request && (p.streamed ==> p.srcEnd)
      invariant failed ==> !p.whole
    {
      match events[i] {
        case Window(n) =>
          var chunk;
          chunk, eof, failed := p.BodySource(n);
          FlattenAppend(chunks, chunk);
          chunks := chunks + [chunk];
        case Own(closed, memory) =>
          var rc := p.OwnBody(closed, memory);
      }
      i := i + 1;
    }
  }
}
