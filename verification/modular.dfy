/** Remainders by a number that varies: taking off one turn after another. */
module Modular {
  function Residue(a: nat, n: nat): (r: nat)
    requires 0 < n
    ensures r < n
  {
    if a < n then a else Residue(a - n, n)
  }

  lemma {:induction false} ResidueIsRemainder(a: nat, n: nat)
    requires 0 < n
    ensures Residue(a, n) == a % n
  {
    if a >= n {
      ResidueIsRemainder(a - n, n);
      var q, r := (a - n) / n, (a - n) % n;
      assert a == (q + 1) * n + r;
      RemainderUnique(n, q + 1, r, a);
    } else {
      RemainderUnique(n, 0, a, a);
    }
  }

  lemma RemainderUnique(n: nat, q: int, r: int, a: int)
    requires 0 < n && 0 <= r < n && a == q * n + r
    ensures a % n == r
  {
    var d := a / n - q;
    assert d * n == (a / n) * n - q * n;
    Multiple(d, n);
  }

  lemma Multiple(d: int, n: int)
    requires 0 <= n
    ensures 1 <= d ==> n <= d * n
    ensures d <= -1 ==> d * n <= -n
  {
    if 1 <= d {
      assert d * n == n + (d - 1) * n;
    } else if d <= -1 {
      assert d * n == -n + (d + 1) * n;
    }
  }
}
