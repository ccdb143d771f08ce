/** The growable byte buffer: a block of memory that is replaced when it is too small, under an
    optional ceiling. */
module Growth {
  import opened Base

  /** The sizes a buffer's block can have. The 1.5x step would stand still at a size of 1; no size
      below 64 is reachable but none and the ceiling. */
  predicate Reachable(cap: nat, max: nat)
  {
    && (cap == 0 || cap >= 64 || cap == max)
    && (max != 0 ==> cap <= max) && cap <= U64_MAX
  }

  /** The growth loop. It ends, with room for `need`, within the ceiling, and never asks for more
      than half as much again as is needed (or the first 64 bytes). */
  method NewCap(old_: nat, need: nat, max: nat) returns (cap: nat)
    requires Reachable(old_, max) && old_ < need <= U64_MAX && (max != 0 ==> need <= max)
    ensures Reachable(cap, max) && cap >= need
    ensures cap <= 64 || cap <= need + need / 2
  {
    cap := if old_ != 0 then old_ else 64;
    while cap < need
      invariant cap >= 64 && cap <= U64_MAX
      invariant cap <= 64 || cap <= need + need / 2
      decreases need - cap
    {
      var half := cap / 2;
      if cap + half > U64_MAX {
        cap := need;
        break;
      }
      cap := cap + half;
      if max != 0 && cap > max {
        cap := max;
        break;
      }
    }
    if cap < need {
      cap := need;
    }
    if max != 0 && cap > max {
      cap := max;
    }
  }

  class Bytes {
    const max: nat
    var data: array<Byte>
    var len: nat
    var hitLimit: bool

    ghost predicate Valid()
      reads this
    {
      len <= data.Length && Reachable(data.Length, max)
    }

    ghost function Contents(): seq<Byte>
      requires Valid()
      reads this, data
    {
      data[..len]
    }

    constructor (max: nat)
      ensures Valid() && fresh(data) && Contents() == [] && !hitLimit && this.max == max
    {
      this.max, len, hitLimit := max, 0, false;
      data := new Byte[0];
    }

    /** Would a block for `need` bytes be larger than allowed? */
    predicate Over(need: nat)
    {
      max != 0 && need > max
    }

    method GrowTo(need: nat, memory: bool) returns (ok: bool)
      requires Valid() && need <= U64_MAX
      modifies this`data, this`hitLimit
      ensures Valid() && Contents() == old(Contents())
      ensures data == old(data) || fresh(data)
      ensures ok <==> need <= old(data).Length || (!Over(need) && memory)
      ensures ok ==> need <= data.Length
      ensures hitLimit <==> old(hitLimit) || Over(need)
    {
      if need <= data.Length {
        return true;
      }
      if max != 0 && need > max {
        hitLimit := true;
        return false;
      }
      var cap := NewCap(data.Length, need, max);
      if !memory {
        return false;
      }
      var bigger := new Byte[cap];
      forall i | 0 <= i < len {
        bigger[i] := data[i];
      }
      data := bigger;
      return true;
    }

    method Append(src: seq<Byte>, memory: bool) returns (ok: bool)
      requires Valid()
      modifies this, data
      ensures Valid() && (data == old(data) || fresh(data))
      ensures Contents() == old(Contents()) + if ok then src else []
      ensures ok <==>
        || src == []
        || old(len) + |src| <= old(data).Length
        || (old(len) + |src| <= U64_MAX && !Over(old(len) + |src|) && memory)
      ensures hitLimit <==> old(hitLimit) || (old(len) + |src| <= U64_MAX && Over(old(len) + |src|) && src != [])
    {
      if src == [] {
        return true;
      }
      var need := len + |src|;
      if need > U64_MAX {
        return false;
      }
      ok := GrowTo(need, memory);
      if ok {
        forall i | 0 <= i < |src| {
          data[len + i] := src[i];
        }
        len := need;
      }
    }

    method Consume(n: nat)
      requires Valid()
      modifies this`len, data
      ensures Valid() && Contents() == old(Contents())[Min(n, old(len))..]
    {
      if n >= len {
        len := 0;
        return;
      }
      forall i | 0 <= i < len - n {
        data[i] := data[i + n];
      }
      len := len - n;
    }
  }
}
