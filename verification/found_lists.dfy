/** Lists of peers that are put one behind the other, and whether one comes twice. */
module FoundLists {
  import opened NpManagers
  import opened GroupSearch

  predicate NoRepeats(s: seq<PeerInfo>) {
    forall i, j :: 0 <= i < j < |s| ==> s[i] != s[j]
  }

  /** What every round contributes. */
  type Parts = nat -> seq<PeerInfo>

  function Joined(part: Parts, m: nat): seq<PeerInfo> {
    if m == 0 then [] else Joined(part, m - 1) + part(m - 1)
  }

  /** A part stands behind the parts before it. */
  lemma {:induction false} JoinedHolds(part: Parts, k: nat, m: nat)
    requires k < m
    ensures Joined(part, k) + part(k) <= Joined(part, m)
  {
    if k < m - 1 {
      JoinedHolds(part, k, m - 1);
    }
  }

  lemma {:induction false} OnlyPart(part: Parts, i: nat, m: nat)
    requires forall k: nat :: k < m && k != i ==> part(k) == []
    ensures Joined(part, m) == if i < m then part(i) else []
  {
    if 0 < m {
      OnlyPart(part, i, m - 1);
      assert m - 1 != i ==> part(m - 1) == [];
    }
  }

  lemma TwiceAt(r: seq<PeerInfo>, all: seq<PeerInfo>, n: nat, a: nat, b: nat)
    requires r == Take(all, n) && a < b < |all| && b < n && all[a] == all[b]
    ensures !NoRepeats(r)
  {
    assert r[a] == r[b];
  }

  lemma JoinedAt(part: Parts, k: nat, x: nat, m: nat)
    requires k < m && x < |part(k)|
    ensures |Joined(part, k)| + x < |Joined(part, m)|
    ensures Joined(part, m)[|Joined(part, k)| + x] == part(k)[x]
  {
    JoinedHolds(part, k, m);
    assert (Joined(part, k) + part(k))[|Joined(part, k)| + x] == part(k)[x];
  }

  /** What both parts hold is there twice if there is room as far as the second time. */
  lemma HeldTwice(part: Parts, i: nat, j: nat, x: nat, y: nat, n: nat, m: nat)
    requires i < j < m && x < |part(i)| && y < |part(j)| && part(i)[x] == part(j)[y]
    requires |Joined(part, j)| + y < n
    ensures !NoRepeats(Take(Joined(part, m), n))
  {
    JoinedAt(part, i, x, j);
    JoinedAt(part, i, x, m);
    JoinedAt(part, j, y, m);
    TwiceAt(Take(Joined(part, m), n), Joined(part, m), n, |Joined(part, i)| + x, |Joined(part, j)| + y);
  }

  /** Cut off before its end, a list behind its own rear part repeats nothing. */
  lemma CutBeforeRepeat(front: seq<PeerInfo>, rear: seq<PeerInfo>, n: nat)
    requires NoRepeats(front + rear) && rear != [] && |rear| < n <= |rear| + |front|
    ensures NoRepeats(Take(rear + (front + rear), n))
  {
    var both, r := front + rear, Take(rear + (front + rear), n);
    assert forall k :: 0 <= k < n ==> r[k] == if k < |rear| then both[|front| + k] else both[k - |rear|];
  }

  /** Two parts that are not empty. */
  predicate Both(part: Parts, i: nat, j: nat) {
    i < j && part(i) != [] && part(j) != []
  }

  /** The later part ends with the earlier one, and n are reached in front of that. */
  predicate Cut(part: Parts, n: nat, i: nat, j: nat, front: seq<PeerInfo>) {
    part(j) == front + part(i) && n <= |Joined(part, j)| + |front|
  }

  lemma TwoParts(part: Parts, n: nat, i: nat, j: nat, front: seq<PeerInfo>)
    requires Both(part, i, j) && NoRepeats(part(j)) && Cut(part, n, i, j, front) && |Joined(part, j)| < n
    requires forall k: nat :: k < j && k != i ==> part(k) == []
    ensures NoRepeats(Take(Joined(part, j + 1), n))
  {
    OnlyPart(part, i, j);
    CutBeforeRepeat(front, part(i), n);
  }

  /** If any two parts are cut like that, there are at most two of them, and nobody is named twice. */
  lemma CutNamesNobodyTwice(part: Parts, front: (nat, nat) -> seq<PeerInfo>, n: nat, m: nat)
    requires forall k: nat :: k < m ==> NoRepeats(part(k))
    requires forall k: nat :: 0 < k < m ==> |Joined(part, k)| < n
    requires forall i: nat, j: nat :: j < m && Both(part, i, j) ==> Cut(part, n, i, j, front(i, j))
    ensures NoRepeats(Take(Joined(part, m), n))
  {
    if i: nat, j: nat :| j < m && Both(part, i, j) {
      CutIsLast(part, n, i, j, m, front(i, j));
      forall k: nat | k < j && k != i
        ensures part(k) == []
      {
        if part(k) != [] {
          var a, b := if k < i then k else i, if k < i then i else k;
          assert Both(part, a, b);
          CutIsLast(part, n, a, b, m, front(a, b));
        }
      }
      TwoParts(part, n, i, j, front(i, j));
    } else {
      OnePart(part, n, m);
    }
  }

  lemma OnePart(part: Parts, n: nat, m: nat)
    requires forall k: nat :: k < m ==> NoRepeats(part(k))
    requires forall i: nat, j: nat :: j < m ==> !Both(part, i, j)
    ensures NoRepeats(Take(Joined(part, m), n))
  {
    OnePartIsAll(part, m);
    TakeRepeatsNothing(Joined(part, m), n);
  }

  lemma TakeRepeatsNothing(s: seq<PeerInfo>, n: nat)
    requires NoRepeats(s)
    ensures NoRepeats(Take(s, n))
  {
  }

  lemma OnePartIsAll(part: Parts, m: nat)
    requires forall k: nat :: k < m ==> NoRepeats(part(k))
    requires forall i: nat, j: nat :: j < m ==> !Both(part, i, j)
    ensures NoRepeats(Joined(part, m))
  {
    if i: nat :| i < m && part(i) != [] {
      forall k: nat | k < m && k != i
        ensures part(k) == []
      {
        assert !Both(part, i, k) && !Both(part, k, i);
      }
      OnlyPart(part, i, m);
    } else {
      OnlyPart(part, m, m);
    }
  }

  lemma CutIsLast(part: Parts, n: nat, i: nat, j: nat, m: nat, front: seq<PeerInfo>)
    requires j < m && Both(part, i, j) && Cut(part, n, i, j, front)
    requires forall k: nat :: 0 < k < m ==> |Joined(part, k)| < n
    ensures j + 1 == m
  {
    assert |Joined(part, j + 1)| >= n;
  }
}
