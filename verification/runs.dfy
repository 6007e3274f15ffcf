/**
 The run lists that `IntervalArray` keeps, as values: what the array denotes, the canonical
 form, and the exact effect of the scanning, deleting and restarting mutators on a run list.
 */
module Runs {
  import opened Words

  const MAX_RUNS: int := 0xffff

  datatype BlockInterval = BlockInterval(start: u32, size: u32) {
    /** One past the last block, in the source's unsigned arithmetic. */
    function End(): u32 {
      Add32(start, size)
    }

    ghost predicate Contains(x: int) {
      start <= x < start + size
    }

    /** The run is non-empty and its end is a 32-bit value. */
    predicate Sound() {
      0 < size && start + size <= UINT_MAX
    }
  }

  /** Block x belongs to the set that the runs denote. */
  ghost predicate Has(s: seq<BlockInterval>, x: int) {
    exists i :: 0 <= i < |s| && s[i].Contains(x)
  }

  /** Non-empty runs, sorted, with a gap between any two of them. */
  ghost predicate Canonical(s: seq<BlockInterval>) {
    && (forall i :: 0 <= i < |s| ==> s[i].Sound())
    && (forall i, j :: 0 <= i < j < |s| ==> s[i].End() < s[j].start)
  }

  ghost predicate IsUnion(r: seq<BlockInterval>, s: seq<BlockInterval>, lo: int, hi: int) {
    Canonical(r) && forall x :: Has(r, x) <==> Has(s, x) || lo <= x < hi
  }

  ghost predicate IsDifference(r: seq<BlockInterval>, s: seq<BlockInterval>, lo: int, hi: int) {
    Canonical(r) && forall x :: Has(r, x) <==> Has(s, x) && !(lo <= x < hi)
  }

  // ---------------------------------------------------------------- the two array shifts

  /** An insertion at i, silently dropped when the 16-bit run counter is at its maximum. */
  function Insert(s: seq<BlockInterval>, i: nat, b: BlockInterval): seq<BlockInterval>
    requires i <= |s|
  {
    if |s| == MAX_RUNS then s else s[..i] + [b] + s[i..]
  }

  function Remove(s: seq<BlockInterval>, i: nat): seq<BlockInterval>
    requires i < |s|
  {
    s[..i] + s[i + 1..]
  }

  lemma HasInsert(s: seq<BlockInterval>, i: nat, b: BlockInterval)
    requires i <= |s| && |s| != MAX_RUNS
    ensures forall x :: Has(Insert(s, i, b), x) <==> Has(s, x) || b.Contains(x)
  {
    var r := Insert(s, i, b);
    forall x
      ensures Has(r, x) <==> Has(s, x) || b.Contains(x)
    {
      if Has(s, x) {
        var k :| 0 <= k < |s| && s[k].Contains(x);
        assert r[if k < i then k else k + 1].Contains(x);
      }
      if b.Contains(x) {
        assert r[i].Contains(x);
      }
      if Has(r, x) && !b.Contains(x) {
        var k :| 0 <= k < |r| && r[k].Contains(x);
        assert s[if k < i then k else k - 1].Contains(x);
      }
    }
  }

  lemma HasRemove(s: seq<BlockInterval>, i: nat)
    requires i < |s|
    ensures forall x :: Has(s, x) <==> Has(Remove(s, i), x) || s[i].Contains(x)
  {
    var r := Remove(s, i);
    forall x
      ensures Has(s, x) <==> Has(r, x) || s[i].Contains(x)
    {
      if Has(r, x) {
        var k :| 0 <= k < |r| && r[k].Contains(x);
        assert s[if k < i then k else k + 1].Contains(x);
      }
      if Has(s, x) && !s[i].Contains(x) {
        var k :| 0 <= k < |s| && s[k].Contains(x);
        assert r[if k < i then k else k - 1].Contains(x);
      }
    }
  }

  lemma CanonicalRemove(s: seq<BlockInterval>, i: nat)
    requires i < |s| && Canonical(s)
    ensures Canonical(Remove(s, i))
    ensures forall x :: Has(Remove(s, i), x) ==> !s[i].Contains(x)
  {
    var r := Remove(s, i);
    assert forall k :: 0 <= k < |r| ==> r[k] == s[if k < i then k else k + 1];
    forall x | Has(r, x)
      ensures !s[i].Contains(x)
    {
      var k :| 0 <= k < |r| && r[k].Contains(x);
      assert r[k] == s[if k < i then k else k + 1];
    }
  }

  /** A list whose runs keep their order, with one between the first i and the others. */
  lemma InsertedOrder(s: seq<BlockInterval>, i: nat, r: seq<BlockInterval>)
    requires i <= |s| && Canonical(s) && |r| == |s| + 1 && r[i].Sound()
    requires forall k :: 0 <= k < i ==> r[k] == s[k] && s[k].End() < r[i].start
    requires forall k :: i < k < |r| ==> r[k] == s[k - 1] && r[i].End() < r[k].start
    ensures Canonical(r)
  {
    forall k | 0 <= k < |r|
      ensures r[k].Sound()
    {
    }
    forall k, l | 0 <= k < l < |r|
      ensures r[k].End() < r[l].start
    {
    }
  }

  lemma CanonicalInsert(s: seq<BlockInterval>, i: nat, b: BlockInterval)
    requires i <= |s| && |s| != MAX_RUNS && Canonical(s) && b.Sound()
    requires 0 < i ==> s[i - 1].End() < b.start
    requires i < |s| ==> b.End() < s[i].start
    ensures Canonical(Insert(s, i, b))
  {
    var r := Insert(s, i, b);
    forall k | 0 <= k < i
      ensures r[k] == s[k] && s[k].End() < b.start
    {
      assert k < i - 1 ==> s[k].End() < s[i - 1].start && s[i - 1].Sound();
    }
    forall k | i < k < |r|
      ensures r[k] == s[k - 1] && b.End() < r[k].start
    {
      assert i < k - 1 ==> s[i].End() < s[k - 1].start && s[i].Sound();
    }
    InsertedOrder(s, i, r);
  }

  lemma CanonicalUpdate(s: seq<BlockInterval>, i: nat, b: BlockInterval)
    requires i < |s| && Canonical(s) && b.Sound()
    requires 0 < i ==> s[i - 1].End() < b.start
    requires i + 1 < |s| ==> b.End() < s[i + 1].start
    ensures Canonical(s[i := b])
  {
  }

  /** Replacing run i of a canonical list changes the denoted set by exactly that run. */
  lemma HasUpdate(s: seq<BlockInterval>, i: nat, b: BlockInterval)
    requires i < |s| && Canonical(s)
    ensures forall x :: Has(s[i := b], x) <==> (Has(s, x) && !s[i].Contains(x)) || b.Contains(x)
  {
    var r := s[i := b];
    forall x
      ensures Has(r, x) <==> (Has(s, x) && !s[i].Contains(x)) || b.Contains(x)
    {
      if Has(r, x) && !b.Contains(x) {
        var k :| 0 <= k < |r| && r[k].Contains(x);
        assert k != i && s[k].Contains(x);
      }
      if Has(s, x) && !s[i].Contains(x) {
        var k :| 0 <= k < |s| && s[k].Contains(x);
        assert r[k].Contains(x);
      }
      if b.Contains(x) {
        assert r[i].Contains(x);
      }
    }
  }

  // ---------------------------------------------------------------- the canonical form is unique

  lemma HasFirst(a: seq<BlockInterval>)
    requires Canonical(a) && a != []
    ensures Has(a, a[0].start)
  {
    assert a[0].Sound() && a[0].Contains(a[0].start);
  }

  lemma SameFirstRun(a: seq<BlockInterval>, b: seq<BlockInterval>)
    requires Canonical(a) && Canonical(b) && a != [] && b != []
    requires forall x :: Has(a, x) ==> Has(b, x)
    ensures b[0].start <= a[0].start
  {
    HasFirst(a);
    assert b[0].Sound();
    var k :| 0 <= k < |b| && b[k].Contains(a[0].start);
  }

  lemma GapAfterFirst(a: seq<BlockInterval>)
    requires Canonical(a) && a != []
    ensures !Has(a, a[0].End())
    ensures forall x :: a[0].start <= x < a[0].End() ==> Has(a, x)
    ensures forall x :: Has(a[1..], x) <==> Has(a, x) && a[0].End() <= x
    ensures Canonical(a[1..])
  {
    assert a[0].Sound();
    forall x | a[0].start <= x < a[0].End()
      ensures Has(a, x)
    {
      assert a[0].Contains(x);
    }
    forall x
      ensures Has(a[1..], x) <==> Has(a, x) && a[0].End() <= x
    {
      if Has(a[1..], x) {
        var k :| 0 <= k < |a[1..]| && a[1..][k].Contains(x);
        assert a[k + 1].Contains(x);
      }
      if Has(a, x) && a[0].End() <= x {
        var k :| 0 <= k < |a| && a[k].Contains(x);
        assert a[1..][k - 1].Contains(x);
      }
    }
  }

  lemma {:induction false} CanonicalUnique(a: seq<BlockInterval>, b: seq<BlockInterval>)
    requires Canonical(a) && Canonical(b)
    requires forall x :: Has(a, x) <==> Has(b, x)
    ensures a == b
  {
    if a == [] || b == [] {
      if a != [] {
        HasFirst(a);
      }
      if b != [] {
        HasFirst(b);
      }
    } else {
      SameFirstRun(a, b);
      SameFirstRun(b, a);
      GapAfterFirst(a);
      GapAfterFirst(b);
      assert a[0].Sound() && b[0].Sound();
      assert a[0].End() == b[0].End();
      CanonicalUnique(a[1..], b[1..]);
      assert a == [a[0]] + a[1..] && b == [b[0]] + b[1..];
    }
  }

  // ---------------------------------------------------------------- where the runs lie

  /** A covered stretch of blocks lies inside one run. */
  lemma {:induction false} CoveredStretch(s: seq<BlockInterval>, lo: int, hi: int) returns (i: nat)
    requires Canonical(s) && lo < hi && forall x :: lo <= x < hi ==> Has(s, x)
    ensures i < |s| && s[i].start <= lo && hi <= s[i].End()
    decreases hi - lo
  {
    if hi == lo + 1 {
      assert Has(s, lo);
      i :| 0 <= i < |s| && s[i].Contains(lo);
      assert s[i].Sound();
    } else {
      i := CoveredStretch(s, lo, hi - 1);
      assert Has(s, hi - 1) && s[i].Sound();
      var k :| 0 <= k < |s| && s[k].Contains(hi - 1);
      assert s[k].Sound();
    }
  }

  // ---------------------------------------------------------------- looking a block up

  /** The scan of `FindBlock` from run i on. */
  predicate FindsFrom(s: seq<BlockInterval>, i: nat, block: u32)
    requires i <= |s|
    decreases |s| - i
  {
    i < |s| && s[i].start <= block && (block < s[i].End() || FindsFrom(s, i + 1, block))
  }

  predicate Finds(s: seq<BlockInterval>, block: u32) {
    FindsFrom(s, 0, block)
  }

  /** A hit is right on any list, a miss on a canonical one. */
  lemma {:induction false} FindsFromIsMembership(s: seq<BlockInterval>, i: nat, block: u32)
    requires i <= |s|
    ensures FindsFrom(s, i, block) ==> Has(s, block)
    ensures Canonical(s) && (0 < i ==> s[i - 1].End() <= block) ==> (FindsFrom(s, i, block) <==> Has(s, block))
    decreases |s| - i
  {
    if i < |s| && s[i].start <= block {
      if block < s[i].End() {
        assert s[i].Contains(block);
      } else {
        FindsFromIsMembership(s, i + 1, block);
      }
    } else if Canonical(s) && (0 < i ==> s[i - 1].End() <= block) {
      forall k | 0 <= k < |s|
        ensures !s[k].Contains(block)
      {
        assert s[k].Sound();
        if k < i - 1 {
          assert s[k].End() < s[i - 1].start && s[i - 1].Sound();
        }
        if i < k {
          assert s[i].End() < s[k].start && s[i].Sound();
        }
      }
    }
  }
}
