/** Response heads: read until the parser is satisfied, and again behind every interim response.
    What has been read beyond the final head is the start of the body. */
module Response {
  import opened Base
  import opened Body
  import Reader

  /** The head parser on all that has been read. */
  datatype Parsed = More | Head(consumed: nat, interim: bool) | Bad(code: Code)

  type Parser = seq<Byte> -> Parsed

  /** A head is not empty and lies within what was read. */
  ghost predicate Sane(parse: Parser)
  {
    forall raw: seq<Byte> ::
      (parse(raw).Head? ==> 0 < parse(raw).consumed <= |raw|) && (parse(raw).Bad? ==> parse(raw).code != Ok)
  }

  const MAX_HEAD: nat := 65536

  /** Why no head was found in what was read, `ended` being whether that was everything: the parser
      refused it, or wanted more when there was no more, no room, or no memory. */
  ghost predicate Headless(parse: Parser, memory: nat -> bool, raw: seq<Byte>, ended: bool, ending: Read, rc: Code)
  {
    match parse(raw)
    case Head(_, _) => false
    case Bad(code) => rc == if code == Ok then Parse else code
    case More =>
      || (rc == BodyLimit && |raw| >= MAX_HEAD)
      || (rc == NoMem && !memory(|raw|))
      || (ended && !ending.Data? && rc == Reader.Starved(ending))
  }

  /** Each of these was, when the parser saw it, an interim response and what followed so far. */
  ghost predicate Interim(parse: Parser, seen: seq<seq<Byte>>)
  {
    seen == [] ||
    var n := |seen| - 1;
    && Interim(parse, seen[..n])
    && parse(seen[n]).Head? && parse(seen[n]).interim && parse(seen[n]).consumed <= |seen[n]|
  }

  /** Their heads, one behind the other. */
  ghost function Skipped(parse: Parser, seen: seq<seq<Byte>>): seq<Byte>
    requires Interim(parse, seen)
  {
    if seen == [] then []
    else var n := |seen| - 1; Skipped(parse, seen[..n]) + seen[n][..parse(seen[n]).consumed]
  }

  /** The heads are those of interim responses, then one that is not; the seed lies behind that. */
  ghost predicate Final(parse: Parser, heads: seq<Byte>, seed: seq<Byte>)
  {
    exists seen: seq<seq<Byte>>, raw: seq<Byte> ::
      && Interim(parse, seen)
      && parse(raw).Head? && !parse(raw).interim && parse(raw).consumed <= |raw|
      && heads == Skipped(parse, seen) + raw[..parse(raw).consumed] && seed == raw[parse(raw).consumed..]
  }

  /** Read until the head is complete, behind the heads already dealt with. `memory` says whether
      the buffer can still grow. */
  method ReadHead(s: Stream, raw0: seq<Byte>, parse: Parser, memory: nat -> bool, ghost heads: seq<Byte>)
    returns (rc: Code, raw: seq<Byte>)
    requires Proper(s.script) && heads + raw0 == s.got
    modifies s
    ensures Proper(s.script) && Ending(s.script) == old(Ending(s.script))
    ensures s.got + Bytes(s.script) == old(s.got + Bytes(s.script))
    ensures rc == Ok ==> parse(raw).Head? && heads + raw == s.got
    ensures rc != Ok ==>
      heads + raw <= s.got && Headless(parse, memory, raw, heads + raw == s.got + Bytes(s.script), Ending(s.script), rc)
  {
    raw := raw0;
    while true
      invariant Proper(s.script) && Ending(s.script) == old(Ending(s.script))
      invariant s.got + Bytes(s.script) == old(s.got + Bytes(s.script)) && heads + raw == s.got
      decreases |s.script|
    {
      var head := parse(raw);
      if head.Head? {
        return Ok, raw;
      }
      if head.Bad? {
        return (if head.code == Ok then Parse else head.code), raw;
      }
      if |raw| >= MAX_HEAD {
        return BodyLimit, raw;
      }
      var r := s.Next();
      if !r.Data? {
        return (if r.Fail? then r.code else Parse), raw;
      }
      if !memory(|raw|) {
        return NoMem, raw;
      }
      Regroup(heads, raw, r.bytes);
      raw := raw + r.bytes;
    }
  }

  /** Skip interim responses. What was received is the heads read and the seed of the body; without
      a final head, what was left of it when that became clear is in `seed`. */
  method ReadFinalHead(s: Stream, parse: Parser, memory: nat -> bool)
    returns (rc: Code, seed: seq<Byte>, ghost heads: seq<Byte>)
    requires Proper(s.script) && Sane(parse) && s.got == []
    modifies s
    ensures Proper(s.script) && Ending(s.script) == old(Ending(s.script))
    ensures s.got + Bytes(s.script) == old(Bytes(s.script))
    ensures rc == Ok ==> heads + seed == s.got && heads != [] && Final(parse, heads, seed)
    ensures rc != Ok ==>
      && heads + seed <= s.got
      && Headless(parse, memory, seed, heads + seed == s.got + Bytes(s.script), Ending(s.script), rc)
    ensures rc != Ok ==>
      parse(seed).Bad? || |seed| >= MAX_HEAD || !memory(|seed|) || heads + seed == old(Bytes(s.script))
  {
    heads, seed := [], [];
    ghost var all := Bytes(s.script);
    ghost var seen := [];
    var raw;
    rc, raw := ReadHead(s, [], parse, memory, heads);
    while rc == Ok && parse(raw).interim
      invariant Proper(s.script) && Ending(s.script) == old(Ending(s.script))
      invariant s.got + Bytes(s.script) == all && |heads| <= |all|
      invariant Interim(parse, seen) && heads == Skipped(parse, seen)
      invariant rc == Ok ==> parse(raw).Head? && heads + raw == s.got
      invariant rc != Ok ==>
        && heads + raw <= s.got
        && Headless(parse, memory, raw, heads + raw == s.got + Bytes(s.script), Ending(s.script), rc)
      decreases rc == Ok, |all| - |heads|
    {
      var consumed := parse(raw).consumed;
      Split(heads, raw, consumed);
      assert |heads| + |raw| == |s.got| <= |all|;
      SkipsOneMore(parse, seen, raw);
      seen := seen + [raw];
      heads, raw := heads + raw[..consumed], raw[consumed..];
      rc, raw := ReadHead(s, raw, parse, memory, heads);
    }
    if rc == Ok {
      var consumed := parse(raw).consumed;
      Split(heads, raw, consumed);
      heads, seed := heads + raw[..consumed], raw[consumed..];
      FinalBehind(parse, seen, raw);
    } else {
      seed := raw;
    }
  }

  lemma SkipsOneMore(parse: Parser, seen: seq<seq<Byte>>, raw: seq<Byte>)
    requires Interim(parse, seen)
    requires parse(raw).Head? && parse(raw).interim && parse(raw).consumed <= |raw|
    ensures Interim(parse, seen + [raw])
    ensures Skipped(parse, seen + [raw]) == Skipped(parse, seen) + raw[..parse(raw).consumed]
  {
    assert (seen + [raw])[..|seen|] == seen;
  }

  lemma FinalBehind(parse: Parser, seen: seq<seq<Byte>>, raw: seq<Byte>)
    requires Interim(parse, seen)
    requires parse(raw).Head? && !parse(raw).interim && parse(raw).consumed <= |raw|
    ensures Final(parse, Skipped(parse, seen) + raw[..parse(raw).consumed], raw[parse(raw).consumed..])
  {
  }

  lemma Split(heads: seq<Byte>, raw: seq<Byte>, k: nat)
    requires k <= |raw|
    ensures heads + raw == heads + raw[..k] + raw[k..]
  {
    assert raw == raw[..k] + raw[k..];
  }
}
