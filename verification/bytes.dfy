/** Little-endian fields of the wire format. */
module Bytes {
  import opened Words

  function Power256(n: nat): (p: nat)
    ensures 0 < p
  {
    if n == 0 then 1 else 256 * Power256(n - 1)
  }

  function Le(v: nat, n: nat): (b: seq<u8>)
    ensures |b| == n
  {
    if n == 0 then [] else [v % 256] + Le(v / 256, n - 1)
  }

  function FromLe(b: seq<u8>): (v: nat)
    ensures v < Power256(|b|)
  {
    if b == [] then 0 else b[0] + 256 * FromLe(b[1..])
  }

  lemma {:induction false} FromLeOfLe(v: nat, n: nat)
    requires v < Power256(n)
    ensures FromLe(Le(v, n)) == v
  {
    if n > 0 {
      FromLeOfLe(v / 256, n - 1);
      assert Le(v, n)[1..] == Le(v / 256, n - 1);
    }
  }

  lemma {:induction false} LeOfFromLe(b: seq<u8>)
    ensures Le(FromLe(b), |b|) == b
  {
    if b != [] {
      LeOfFromLe(b[1..]);
      assert FromLe(b) % 256 == b[0] && FromLe(b) / 256 == FromLe(b[1..]);
    }
  }

  lemma Widths()
    ensures Power256(1) == 0x100 && Power256(2) == 0x1_0000 && Power256(4) == 0x1_0000_0000
  {
    assert Power256(2) == 256 * Power256(1);
    assert Power256(3) == 256 * Power256(2);
    assert Power256(4) == 256 * Power256(3);
  }
}
