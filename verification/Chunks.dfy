/** The HTTP/1.1 streamed request body: each piece a source yields goes out as one chunk, and the
    empty one ends the body. The decoder is that of section 7.1 of RFC 9112, with no chunk
    extension and an empty trailer section. */
module Chunks {
  import opened Base
  import opened H2Send

  const CRLF: seq<Byte> := [0x0D, 0x0A]

  function HexChar(d: nat): Byte
    requires d < 16
  {
    if d < 10 then 0x30 + (d as Byte) else 0x57 + (d as Byte)
  }

  /** The value of a hexadecimal digit in either case, and 16 for any other byte. */
  function HexValue(b: Byte): (v: nat)
    ensures v <= 16
  {
    if 0x30 <= b <= 0x39 then (b - 0x30) as nat
    else if 0x61 <= b <= 0x66 then (b - 0x57) as nat
    else if 0x41 <= b <= 0x46 then (b - 0x37) as nat
    else 16
  }

  lemma HexCharValue(d: nat)
    requires d < 16
    ensures HexValue(HexChar(d)) == d
  {
    match d
    case 0 => case 1 => case 2 => case 3 => case 4 => case 5 => case 6 => case 7 =>
    case 8 => case 9 => case 10 => case 11 => case 12 => case 13 => case 14 => case 15 =>
  }

  /** `%lx`. */
  function Hex(v: nat): (h: seq<Byte>)
    ensures h != []
  {
    if v < 16 then [HexChar(v)] else Hex(v / 16) + [HexChar(v % 16)]
  }

  predicate AllHex(s: seq<Byte>)
  {
    forall i :: 0 <= i < |s| ==> HexValue(s[i]) < 16
  }

  function Number(s: seq<Byte>): nat
  {
    if s == [] then 0 else 16 * Number(s[..|s| - 1]) + HexValue(s[|s| - 1])
  }

  lemma {:induction false} HexNumber(v: nat)
    ensures AllHex(Hex(v)) && Number(Hex(v)) == v
    ensures v > 0 ==> Hex(v)[0] != HexChar(0)
  {
    if v < 16 {
      HexCharValue(v);
      HexCharValue(0);
      assert Hex(v)[..0] == [];
    } else {
      HexNumber(v / 16);
      HexCharValue(v % 16);
      assert Hex(v)[..|Hex(v)| - 1] == Hex(v / 16);
    }
  }

  // The specification decoder.

  /** Where the run of hexadecimal digits from `i` on ends. */
  function Run(s: seq<Byte>, i: nat): (k: nat)
    requires i <= |s|
    ensures i <= k <= |s|
    decreases |s| - i
  {
    if i < |s| && HexValue(s[i]) < 16 then Run(s, i + 1) else i
  }

  predicate StartsWith(s: seq<Byte>, p: seq<Byte>)
  {
    |p| <= |s| && s[..|p|] == p
  }

  /** The first chunk of a text, and what follows it. */
  datatype Head = NoChunk | Last(rest: seq<Byte>) | Data(data: seq<Byte>, rest: seq<Byte>)

  function First(s: seq<Byte>): (h: Head)
    ensures !h.NoChunk? ==> |h.rest| < |s|
  {
    var k := Run(s, 0);
    if k == 0 || !StartsWith(s[k..], CRLF) then NoChunk
    else
      var n, r := Number(s[..k]), s[k + 2..];
      if |r| < n || !StartsWith(r[n..], CRLF) then NoChunk
      else if n == 0 then Last(r[2..]) else Data(r[..n], r[n + 2..])
  }

  datatype Parsed = Bad | Body(data: seq<Byte>, rest: seq<Byte>)

  function Decode(s: seq<Byte>): Parsed
    decreases |s|
  {
    match First(s)
    case NoChunk => Bad
    case Last(rest) => Body([], rest)
    case Data(d, rest) => match Decode(rest) { case Bad => Bad case Body(b, t) => Body(d + b, t) }
  }

  lemma {:induction false} RunIs(h: seq<Byte>, t: seq<Byte>, i: nat)
    requires i <= |h| && AllHex(h)
    requires t == [] || HexValue(t[0]) == 16
    ensures Run(h + t, i) == |h|
    decreases |h| - i
  {
    if i < |h| {
      RunIs(h, t, i + 1);
    }
  }

  // The writer.

  function SizeLine(d: seq<Byte>, modulus: nat): seq<Byte>
    requires modulus > 0
  {
    Hex(Cast(|d|, modulus)) + CRLF
  }

  function Chunk(d: seq<Byte>, modulus: nat): seq<Byte>
    requires modulus > 0
  {
    SizeLine(d, modulus) + d + CRLF
  }

  function Sent(s: Source, modulus: nat): seq<Byte>
    requires modulus > 0
  {
    if s.Piece? && s.data != [] then Chunk(s.data, modulus) + Sent(s.rest, modulus) else []
  }

  /** The whole body: the pieces and the last chunk. */
  function Wire(s: Source, modulus: nat): seq<Byte>
    requires modulus > 0
  {
    Sent(s, modulus) + Chunk([], modulus)
  }

  predicate Fits(s: Source, modulus: nat)
  {
    s.Piece? && s.data != [] ==> |s.data| < modulus && Fits(s.rest, modulus)
  }

  /** The decoder reads a line of digits as the number they stand for. */
  lemma LineReads(h: seq<Byte>, t: seq<Byte>)
    requires h != [] && AllHex(h)
    ensures
      var s := h + CRLF + t;
      && Run(s, 0) == |h| && StartsWith(s[|h|..], CRLF)
      && s[..|h|] == h && s[|h| + 2..] == t
  {
    var s := h + CRLF + t;
    assert s == h + (CRLF + t);
    assert HexValue((CRLF + t)[0]) == 16;
    RunIs(h, CRLF + t, 0);
    assert s[|h|..] == CRLF + t;
  }

  /** A size line is true exactly when the length fits. */
  lemma SizeLineIsTrueIff(d: seq<Byte>, modulus: nat)
    requires modulus > 0
    ensures Number(Hex(Cast(|d|, modulus))) == |d| <==> |d| < modulus
  {
    HexNumber(Cast(|d|, modulus));
  }

  lemma FirstReads(h: seq<Byte>, d: seq<Byte>, t: seq<Byte>)
    requires h != [] && AllHex(h) && Number(h) == |d|
    ensures First(h + CRLF + (d + CRLF + t)) == if d == [] then Last(t) else Data(d, t)
  {
    var r := d + CRLF + t;
    LineReads(h, r);
    assert r[|d|..] == CRLF + t;
    assert r[|d| + 2..] == t;
    assert r[..|d|] == d;
  }

  lemma RegroupLine(line: seq<Byte>, d: seq<Byte>, end: seq<Byte>, t: seq<Byte>)
    ensures line + d + end + t == line + (d + end + t)
  {
  }

  lemma ChunkReads(d: seq<Byte>, modulus: nat, t: seq<Byte>)
    requires |d| < modulus
    ensures First(Chunk(d, modulus) + t) == if d == [] then Last(t) else Data(d, t)
  {
    var h := Hex(|d|);
    HexNumber(|d|);
    FirstReads(h, d, t);
    RegroupLine(h + CRLF, d, CRLF, t);
  }

  lemma WireSplits(s: Source, modulus: nat)
    requires modulus > 0
    ensures Wire(s, modulus) ==
      if s.Piece? && s.data != [] then Chunk(s.data, modulus) + Wire(s.rest, modulus)
      else Chunk([], modulus)
  {
  }

  lemma PieceReads(d: seq<Byte>, modulus: nat, w: seq<Byte>, t: seq<Byte>)
    requires 0 < |d| < modulus && Decode(w + t).Body?
    ensures Decode(Chunk(d, modulus) + w + t)
         == Body(d + Decode(w + t).data, Decode(w + t).rest)
  {
    ChunkReads(d, modulus, w + t);
    assert Chunk(d, modulus) + w + t == Chunk(d, modulus) + (w + t);
  }

  lemma EndReads(modulus: nat, t: seq<Byte>)
    requires modulus > 0
    ensures Decode(Chunk([], modulus) + t) == Body([], t)
  {
    ChunkReads([], modulus, t);
  }

  /** The round trip: what the writer sends decodes to the source's pieces, one after the other,
      and the decoder stops exactly where the body does, whatever follows. */
  lemma {:induction false} RoundTrip(s: Source, modulus: nat, t: seq<Byte>)
    requires modulus > 0 && Fits(s, modulus)
    ensures Decode(Wire(s, modulus) + t) == Body(Total(s), t)
    decreases s
  {
    WireSplits(s, modulus);
    if s.Piece? && s.data != [] {
      RoundTrip(s.rest, modulus, t);
      PieceReads(s.data, modulus, Wire(s.rest, modulus), t);
    } else {
      EndReads(modulus, t);
    }
  }

  /** Why the bound on the pieces is needed: a piece as long as the unsigned long's range is
      announced as the end of the body, and the rest of it is left for the next request. */
  lemma OverlongPieceEndsTheBody(d: seq<Byte>, t: seq<Byte>)
    requires StartsWith(d, CRLF)
    ensures Decode(Chunk(d, |d|) + t) == Body([], d[2..] + CRLF + t)
  {
    var h := Hex(0);
    HexNumber(0);
    assert Cast(|d|, |d|) == 0;
    assert d == CRLF + d[2..];
    assert h + CRLF + d + CRLF + t == h + CRLF + ([] + CRLF + (d[2..] + CRLF + t));
    FirstReads(h, [], d[2..] + CRLF + t);
  }

  // A body cut short is never taken for a whole one.

  lemma {:induction false} RunGrows(s: seq<Byte>, x: seq<Byte>, i: nat)
    requires i <= |s| && Run(s, i) < |s|
    ensures Run(s + x, i) == Run(s, i)
    decreases |s| - i
  {
    if HexValue(s[i]) < 16 {
      RunGrows(s, x, i + 1);
    }
  }

  lemma StartGrows(s: seq<Byte>, x: seq<Byte>, p: seq<Byte>)
    requires StartsWith(s, p)
    ensures StartsWith(s + x, p) && (s + x)[|p|..] == s[|p|..] + x
  {
    assert (s + x)[..|p|] == s[..|p|];
  }

  lemma LineGrows(s: seq<Byte>, x: seq<Byte>, k: nat)
    requires k == Run(s, 0) && StartsWith(s[k..], CRLF)
    ensures Run(s + x, 0) == k && StartsWith((s + x)[k..], CRLF)
    ensures (s + x)[..k] == s[..k] && (s + x)[k + 2..] == s[k + 2..] + x
  {
    RunGrows(s, x, 0);
    assert (s + x)[k..] == s[k..] + x;
    StartGrows(s[k..], x, CRLF);
  }

  lemma DataGrows(r: seq<Byte>, x: seq<Byte>, n: nat)
    requires n <= |r| && StartsWith(r[n..], CRLF)
    ensures StartsWith((r + x)[n..], CRLF)
    ensures (r + x)[..n] == r[..n] && (r + x)[n + 2..] == r[n + 2..] + x
  {
    assert (r + x)[n..] == r[n..] + x;
    StartGrows(r[n..], x, CRLF);
  }

  lemma FirstGrows(s: seq<Byte>, x: seq<Byte>)
    requires !First(s).NoChunk?
    ensures First(s + x) == First(s).(rest := First(s).rest + x)
  {
    var k := Run(s, 0);
    LineGrows(s, x, k);
    DataGrows(s[k + 2..], x, Number(s[..k]));
  }

  /** Once a body has been decoded, more input only lengthens what is left over. */
  lemma {:induction false} DecodeGrows(s: seq<Byte>, x: seq<Byte>)
    requires Decode(s).Body?
    ensures Decode(s + x) == Body(Decode(s).data, Decode(s).rest + x)
    decreases |s|
  {
    FirstGrows(s, x);
    if First(s).Data? {
      DecodeGrows(First(s).rest, x);
    }
  }

  lemma CutShort(w: seq<Byte>, cut: nat)
    requires Decode(w).Body? && Decode(w).rest == [] && cut < |w|
    ensures Decode(w[..cut]).Bad?
  {
    assert w == w[..cut] + w[cut..];
    if Decode(w[..cut]).Body? {
      DecodeGrows(w[..cut], w[cut..]);
    }
  }

  lemma WholeReads(s: Source, modulus: nat)
    requires modulus > 0 && Fits(s, modulus)
    ensures Decode(Wire(s, modulus)) == Body(Total(s), [])
  {
    RoundTrip(s, modulus, []);
    assert Wire(s, modulus) + [] == Wire(s, modulus);
  }

  /** No proper prefix of a body decodes: a request that broke off is seen to have broken off. */
  lemma CutShortIsSeen(s: Source, modulus: nat, cut: nat)
    requires modulus > 0 && Fits(s, modulus) && cut < |Wire(s, modulus)|
    ensures Decode(Wire(s, modulus)[..cut]).Bad?
  {
    WholeReads(s, modulus);
    CutShort(Wire(s, modulus), cut);
  }

  /** A stream that takes `room` more bytes and then fails. */
  class Stream {
    var out: seq<Byte>
    var room: nat

    constructor (room: nat)
      ensures out == [] && this.room == room
    {
      out, this.room := [], room;
    }

    method WriteAll(d: seq<Byte>) returns (ok: bool)
      modifies this
      ensures ok == (|d| <= old(room))
      ensures room + |out| == old(room + |out|)
      ensures out == old(out) + d[..Min(|d|, old(room))]
    {
      var n := Min(|d|, room);
      ok := n == |d|;
      out, room := out + d[..n], room - n;
    }
  }

  /** What a stream with room for `room` bytes accepts of `d`. */
  function Accepted(d: seq<Byte>, room: nat): seq<Byte>
  {
    d[..Min(|d|, room)]
  }

  /** What is accepted of two texts in a row. */
  lemma AcceptedInTurn(a: seq<Byte>, b: seq<Byte>, room: nat)
    ensures Accepted(a + b, room) ==
      if |a| <= room then a + Accepted(b, room - |a|) else Accepted(a, room)
  {
  }

  /** Size line, data unless empty, line end: each written only if what came before it was. */
  method WriteChunk(s: Stream, d: seq<Byte>, modulus: nat) returns (ok: bool)
    requires modulus > 0
    modifies s
    ensures ok == (|Chunk(d, modulus)| <= old(s.room))
    ensures s.room + |s.out| == old(s.room + |s.out|)
    ensures s.out == old(s.out) + Accepted(Chunk(d, modulus), old(s.room))
  {
    var line := SizeLine(d, modulus);
    AcceptedInTurn(line + d, CRLF, s.room);
    AcceptedInTurn(line, d, s.room);
    ok := s.WriteAll(line);
    if ok && d != [] {
      ok := s.WriteAll(d);
    }
    assert d == [] ==> line + d == line;
    assert s.out == old(s.out) + Accepted(line + d, old(s.room)) && ok == (|line + d| <= old(s.room));
    if ok {
      Regroup(old(s.out), line + d, Accepted(CRLF, s.room));
      ok := s.WriteAll(CRLF);
    }
  }

  lemma AcceptedSoFar(out: seq<Byte>, c: seq<Byte>, w: seq<Byte>, room: nat)
    ensures |c| <= room ==> out + Accepted(c, room) + w == out + (c + w)
    ensures |c| > room ==> out + Accepted(c, room) <= out + (c + w)
  {
  }

  lemma OutcomeReads(out: seq<Byte>, source: Source, modulus: nat)
    requires modulus > 0 && Fits(source, modulus)
    requires out <= Wire(source, modulus)
    ensures Decode(out) == if out == Wire(source, modulus) then Body(Total(source), []) else Bad
  {
    var w := Wire(source, modulus);
    if out == w {
      WholeReads(source, modulus);
    } else {
      assert out == w[..|out|];
      CutShortIsSeen(source, modulus, |out|);
    }
  }

  /** Ask for pieces and write each as a chunk, until the empty one has gone out or something
      fails. */
  method WriteBody(s: Stream, source: Source, modulus: nat) returns (code: Code, sent: nat)
    requires modulus > 0 && s.out == []
    modifies s
    ensures s.out <= Wire(source, modulus)
    ensures code == Ok <==> Complete(source) && |Wire(source, modulus)| <= old(s.room)
    ensures code == Ok ==> s.out == Wire(source, modulus) && sent == |Total(source)|
    ensures code != Ok ==> |s.out| < |Wire(source, modulus)|
    ensures Fits(source, modulus) ==>
      Decode(s.out) == if code == Ok then Body(Total(source), []) else Bad
  {
    var src, ended := source, false;
    code, sent := Ok, 0;
    while code == Ok && !ended
      invariant s.room + |s.out| == old(s.room)
      invariant !ended && code == Ok ==>
        && Wire(source, modulus) == s.out + Wire(src, modulus)
        && |Total(source)| == sent + |Total(src)| && Complete(source) == Complete(src)
      invariant ended ==>
        code == Ok && Complete(source) && s.out == Wire(source, modulus) && sent == |Total(source)|
      invariant code != Ok ==>
        && s.out <= Wire(source, modulus) && |s.out| < |Wire(source, modulus)|
        && (Complete(source) ==> |Wire(source, modulus)| > old(s.room))
      decreases src, !ended, code == Ok
    {
      WireSplits(src, modulus);
      if src.Broken? {
        code := Io;
      } else {
        var d := if src.Ended? then [] else src.data;
        ghost var out, room, c := s.out, s.room, Chunk(d, modulus);
        ghost var w := if d == [] then [] else Wire(src.rest, modulus);
        AcceptedSoFar(out, c, w, room);
        var ok := WriteChunk(s, d, modulus);
        assert Wire(source, modulus) == out + (c + w);
        if !ok {
          code := Io;
        } else if d == [] {
          ended := true;
        } else {
          sent, src := sent + |d|, src.rest;
        }
      }
    }
    if Fits(source, modulus) {
      OutcomeReads(s.out, source, modulus);
    }
  }
}
