/** `RsStreamer`: a cursor over a byte buffer for the typed fields of a message. */
module Streamers {
  import opened Words
  import opened Bytes

  class Streamer {
    var base: array<u8>
    var size: nat
    var curr: nat

    ghost predicate Valid()
      reads this
    {
      curr <= size == base.Length
    }

    ghost function Written(): seq<u8>
      requires Valid()
      reads this, base
    {
      base[..curr]
    }

    ghost function Rest(): seq<u8>
      requires Valid()
      reads this, base
    {
      base[curr..]
    }

    /** The constructor followed by `initialize`. */
    constructor (buf: array<u8>)
      ensures Valid() && base == buf && curr == 0
    {
      base := buf;
      size := buf.Length;
      curr := 0;
    }

    /** `read_char`, `read_short`, `read_int`: n bytes, little-endian; the source asserts the bound. */
    method ReadLe(n: nat) returns (value: nat)
      requires Valid() && n <= |Rest()|
      modifies this
      ensures Valid() && base == old(base) && |Rest()| == old(|Rest()|) - n
      ensures value < Power256(n) && old(Rest()) == Le(value, n) + Rest()
    {
      value := FromLe(base[curr..curr + n]);
      LeOfFromLe(base[curr..curr + n]);
      curr := curr + n;
    }

    method ReadNBytes(n: nat) returns (bytes: seq<u8>)
      requires Valid() && n <= |Rest()|
      modifies this
      ensures Valid() && base == old(base) && |Rest()| == old(|Rest()|) - n
      ensures |bytes| == n && old(Rest()) == bytes + Rest()
    {
      bytes := base[curr..curr + n];
      curr := curr + n;
    }

    method WriteNBytes(bytes: seq<u8>)
      requires Valid() && |bytes| <= |Rest()|
      modifies this, base
      ensures Valid() && base == old(base) && |Rest()| == old(|Rest()|) - |bytes|
      ensures Written() == old(Written()) + bytes
      ensures forall r {:trigger bytes + r} :: Written() + r == old(Written()) + (bytes + r)
    {
      forall k | 0 <= k < |bytes| {
        base[curr + k] := bytes[k];
      }
      ghost var was := Written();
      curr := curr + |bytes|;
      assert Written() == was + bytes;
    }

    /** `write_char`, `write_short`, `write_int`. */
    method WriteLe(value: nat, n: nat)
      requires Valid() && n <= |Rest()|
      modifies this, base
      ensures Valid() && base == old(base) && |Rest()| == old(|Rest()|) - n
      ensures Written() == old(Written()) + Le(value, n)
      ensures forall r {:trigger Le(value, n) + r} :: Written() + r == old(Written()) + (Le(value, n) + r)
    {
      WriteNBytes(Le(value, n));
    }
  }
}
