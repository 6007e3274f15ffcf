/**
 The library sort as `CopyIntervalArray` uses it: an in-place sort of the first n runs by size
 or by start. Its contract leaves the order of equal keys open, as the library does.
 */
module RunSorting {
  import opened Words
  import opened Runs

  datatype Order = BySize | ByStart

  function Key(b: BlockInterval, order: Order): u32 {
    match order
    case BySize => b.size
    case ByStart => b.start
  }

  ghost predicate SortedBy(s: seq<BlockInterval>, order: Order) {
    forall i, j :: 0 <= i < j < |s| ==> Key(s[i], order) <= Key(s[j], order)
  }

  lemma PlacedSorted(s: seq<BlockInterval>, p: nat, b: BlockInterval, order: Order)
    requires p <= |s| && SortedBy(s, order)
    requires forall k :: p <= k < |s| ==> Key(b, order) < Key(s[k], order)
    requires 0 < p ==> Key(s[p - 1], order) <= Key(b, order)
    ensures SortedBy(s[..p] + [b] + s[p..], order)
  {
    var r := s[..p] + [b] + s[p..];
    forall i, j | 0 <= i < j < |r|
      ensures Key(r[i], order) <= Key(r[j], order)
    {
      if i < p - 1 {
        assert Key(s[i], order) <= Key(s[p - 1], order);
      }
    }
  }

  method Place(s: seq<BlockInterval>, b: BlockInterval, order: Order) returns (r: seq<BlockInterval>)
    requires SortedBy(s, order)
    ensures SortedBy(r, order) && multiset(r) == multiset(s) + multiset{b}
  {
    var p := |s|;
    while p > 0 && Key(s[p - 1], order) > Key(b, order)
      invariant 0 <= p <= |s|
      invariant forall k :: p <= k < |s| ==> Key(b, order) < Key(s[k], order)
    {
      p := p - 1;
    }
    PlacedSorted(s, p, b, order);
    assert s == s[..p] + s[p..];
    r := s[..p] + [b] + s[p..];
  }

  method Sort(a: array<BlockInterval>, n: nat, order: Order)
    requires n <= a.Length
    modifies a
    ensures SortedBy(a[..n], order) && multiset(a[..n]) == multiset(old(a[..n]))
    ensures a[n..] == old(a[n..])
  {
    ghost var was := a[..n];
    var s := [];
    for i := 0 to n
      invariant a[..] == old(a[..])
      invariant SortedBy(s, order) && multiset(s) == multiset(was[..i])
    {
      s := Place(s, a[i], order);
      assert was[..i + 1] == was[..i] + [a[i]];
    }
    assert was[..n] == was;
    assert |s| == |multiset(s)| == |multiset(was)| == n;
    forall i | 0 <= i < n {
      a[i] := s[i];
    }
    assert a[..n] == s;
  }

  /** The first k runs in size order are no larger than any other run. */
  lemma SmallestFirst(s: seq<BlockInterval>, k: nat, b: BlockInterval, c: BlockInterval)
    requires SortedBy(s, BySize) && k <= |s|
    requires b in s[..k] && c in multiset(s) - multiset(s[..k])
    ensures b.size <= c.size
  {
    assert s == s[..k] + s[k..];
    assert multiset(s) - multiset(s[..k]) == multiset(s[k..]);
    var i :| 0 <= i < k && s[..k][i] == b;
    var j :| 0 <= j < |s[k..]| && s[k..][j] == c;
    assert Key(s[i], BySize) <= Key(s[k + j], BySize);
  }
}
