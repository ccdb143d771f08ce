/** What the body, HTTP/2 and engine models share. */
module Base {

  /** Payload bytes are only moved, never computed with. */
  type Byte = bv8

  /** Error codes, grouped where the code under proof does not tell them apart. */
  datatype Code =
    | Ok | WouldBlock | Parse | BodyLimit | BodyDecode | NoMem
    | Timeout | Cancelled | Interrupted | Tls | Io
    | BadUrl | BadProxy | NoConnect | BadRedirect | TooManyRedirects | NotReplayable

  const U64_MAX: nat := 0xFFFF_FFFF_FFFF_FFFF

  /** Bytes per read from a stream. */
  const READ_CHUNK: nat := 16384

  function Min(a: nat, b: nat): (m: nat)
    ensures m <= a && m <= b && (m == a || m == b)
  {
    if a <= b then a else b
  }

  /** What an unsigned type keeps of n, when it holds values below `modulus`. */
  function Cast(n: nat, modulus: nat): (r: nat)
    requires modulus > 0
    ensures r < modulus && (r == n <==> n < modulus)
    decreases n
  {
    if n < modulus then n else Cast(n - modulus, modulus)
  }

  /** Wrapping now or later makes no difference to a sum. */
  lemma {:induction false} CastAdds(a: nat, b: nat, modulus: nat)
    requires modulus > 0
    ensures Cast(Cast(a, modulus) + b, modulus) == Cast(a + b, modulus)
    decreases a
  {
    if a >= modulus {
      CastAdds(a - modulus, b, modulus);
    }
  }

  lemma Regroup<T>(x: seq<T>, y: seq<T>, z: seq<T>)
    ensures x + y + z == x + (y + z)
  {
  }

  function Flatten(pieces: seq<seq<Byte>>): seq<Byte>
  {
    if pieces == [] then [] else pieces[0] + Flatten(pieces[1..])
  }

  lemma {:induction false} FlattenAppend(pieces: seq<seq<Byte>>, p: seq<Byte>)
    ensures Flatten(pieces + [p]) == Flatten(pieces) + p
  {
    if pieces == [] {
      assert pieces + [p] == [p];
      assert [p][1..] == [];
    } else {
      FlattenAppend(pieces[1..], p);
      assert (pieces + [p])[1..] == pieces[1..] + [p];
      assert pieces[0] + (Flatten(pieces[1..]) + p) == pieces[0] + Flatten(pieces[1..]) + p;
    }
  }
}
