/** Laws that tie insertion, deletion, intersection and counting of runs to set algebra. */
module RunAlgebra {
  import opened Words
  import opened Runs
  import opened RunInsertion
  import opened RunDeletion

  // ---------------------------------------------------------------- deleting an array

  function DelAll(s: seq<BlockInterval>, ops: seq<BlockInterval>): seq<BlockInterval> {
    if ops == [] then s else DelRuns(DelAll(s, ops[..|ops| - 1]), ops[|ops| - 1].start, ops[|ops| - 1].size)
  }

  lemma {:induction false} DelFromSize(s: seq<BlockInterval>, i: nat, start: u32, size: u32)
    requires i <= |s|
    ensures |DelFrom(s, i, start, size)| <= |s| + 1
    ensures |s| <= MAX_RUNS ==> |DelFrom(s, i, start, size)| <= MAX_RUNS
    decreases Weight(s), |s| - i
  {
    if i < |s| {
      var front := BlockInterval(s[i].start, if s[i].start <= start then start - s[i].start else 0);
      if s[i].start > start {
        WeightRemove(s, i);
        DelFromSize(Remove(s, i), 0, start, size);
      } else if s[i].End() <= start {
        DelFromSize(s, i + 1, start, size);
      } else {
        WeightUpdate(s, i, front);
        if s[i].start != start {
          DelFromSize(s[i := front], 0, start, size);
        }
      }
    }
  }

  /** Deleting a stretch that is covered never meets a special case of `DelInterval`. */
  lemma DelCovered(s: seq<BlockInterval>, b: BlockInterval)
    requires Canonical(s) && |s| < MAX_RUNS && b.Sound()
    requires forall x :: b.Contains(x) ==> Has(s, x)
    ensures IsDifference(DelRuns(s, b.start, b.size), s, b.start, b.start + b.size)
    ensures |DelRuns(s, b.start, b.size)| <= |s| + 1
  {
    CoveredIsRefusedIff(s, b);
    DelIsDifferenceIff(s, b.start, b.size);
    DelFromSize(s, 0, b.start, b.size);
  }

  lemma HasLast(s: seq<BlockInterval>)
    requires s != []
    ensures forall x :: Has(s, x) <==> Has(s[..|s| - 1], x) || s[|s| - 1].Contains(x)
  {
    var n := |s| - 1;
    HasRemove(s, n);
    assert Remove(s, n) == s[..n];
  }

  /** r is canonical and denotes what a holds and the intervals do not. */
  ghost predicate IsDifferenceAll(r: seq<BlockInterval>, a: seq<BlockInterval>, ops: seq<BlockInterval>) {
    Canonical(r) && forall x :: Has(r, x) <==> Has(a, x) && !Has(ops, x)
  }

  /** The array gives up every interval in full at its turn. */
  ghost predicate AllDeleted(a: seq<BlockInterval>, ops: seq<BlockInterval>) {
    forall k :: 0 <= k < |ops| ==> DelAccepts(DelAll(a, ops[..k]), ops[k].start, ops[k].size)
  }

  lemma DeletedPrefix(a: seq<BlockInterval>, ops: seq<BlockInterval>, k: nat)
    requires AllDeleted(a, ops) && k <= |ops|
    ensures AllDeleted(a, ops[..k])
  {
    forall j | 0 <= j < k
      ensures DelAccepts(DelAll(a, ops[..k][..j]), ops[..k][j].start, ops[..k][j].size)
    {
      assert ops[..k][..j] == ops[..j];
    }
  }

  lemma {:induction false} DelAllBounded(a: seq<BlockInterval>, ops: seq<BlockInterval>)
    requires |a| <= MAX_RUNS
    ensures |DelAll(a, ops)| <= MAX_RUNS
  {
    if ops != [] {
      DelAllBounded(a, ops[..|ops| - 1]);
      DelFromSize(DelAll(a, ops[..|ops| - 1]), 0, ops[|ops| - 1].start, ops[|ops| - 1].size);
    }
  }

  lemma OneMoreDifference(r: seq<BlockInterval>, t: seq<BlockInterval>, a: seq<BlockInterval>,
                          ops: seq<BlockInterval>, k: nat)
    requires k < |ops| && IsDifferenceAll(t, a, ops[..k])
    ensures IsDifferenceAll(r, a, ops[..k + 1]) <==> IsDifference(r, t, ops[k].start, ops[k].start + ops[k].size)
  {
    HasInit(ops, k);
    forall x: int
      ensures Has(a, x) && !Has(ops[..k + 1], x) <==> Has(t, x) && !(ops[k].start <= x < ops[k].start + ops[k].size)
    {
      assert ops[k].Contains(x) <==> ops[k].start <= x < ops[k].start + ops[k].size;
    }
  }

  /** Interval k is taken away exactly if it is accepted. */
  lemma {:induction false} DelStep(a: seq<BlockInterval>, ops: seq<BlockInterval>, k: nat)
    requires |a| <= MAX_RUNS && k < |ops| && IsDifferenceAll(DelAll(a, ops[..k]), a, ops[..k])
    ensures IsDifferenceAll(DelAll(a, ops[..k + 1]), a, ops[..k + 1]) <==>
            DelAccepts(DelAll(a, ops[..k]), ops[k].start, ops[k].size)
  {
    var t := DelAll(a, ops[..k]);
    DelAllBounded(a, ops[..k]);
    assert ops[..k + 1][..k] == ops[..k];
    OneMoreDifference(DelAll(a, ops[..k + 1]), t, a, ops, k);
    DelIsDifferenceIff(t, ops[k].start, ops[k].size);
  }

  /** Deleting any intervals that are all accepted is set difference, whether or not the array holds them. */
  lemma {:induction false} DelAllDifference(a: seq<BlockInterval>, ops: seq<BlockInterval>)
    requires Canonical(a) && |a| <= MAX_RUNS && AllDeleted(a, ops)
    ensures IsDifferenceAll(DelAll(a, ops), a, ops)
  {
    if ops != [] {
      var n := |ops| - 1;
      DeletedPrefix(a, ops, n);
      DelAllDifference(a, ops[..n]);
      DelStep(a, ops, n);
      assert ops[..n + 1] == ops;
    }
  }

  /** It is set difference at every moment exactly if all are accepted. */
  lemma {:induction false} AlwaysDifferenceIff(a: seq<BlockInterval>, ops: seq<BlockInterval>)
    requires Canonical(a) && |a| <= MAX_RUNS
    ensures AllDeleted(a, ops) <==> forall k :: 0 <= k <= |ops| ==> IsDifferenceAll(DelAll(a, ops[..k]), a, ops[..k])
  {
    if AllDeleted(a, ops) {
      forall k | 0 <= k <= |ops|
        ensures IsDifferenceAll(DelAll(a, ops[..k]), a, ops[..k])
      {
        DeletedPrefix(a, ops, k);
        DelAllDifference(a, ops[..k]);
      }
    }
    if forall k :: 0 <= k <= |ops| ==> IsDifferenceAll(DelAll(a, ops[..k]), a, ops[..k]) {
      forall k | 0 <= k < |ops|
        ensures DelAccepts(DelAll(a, ops[..k]), ops[k].start, ops[k].size)
      {
        assert IsDifferenceAll(DelAll(a, ops[..k]), a, ops[..k]);
        assert IsDifferenceAll(DelAll(a, ops[..k + 1]), a, ops[..k + 1]);
        DelStep(a, ops, k);
      }
    }
  }

  // ---------------------------------------------------------------- deleting a contained array

  /** Whatever the special cases do, a deletion that does not wrap adds no block and keeps the form. */
  lemma DelOnlyTakes(s: seq<BlockInterval>, start: u32, size: u32)
    requires Canonical(s) && |s| <= MAX_RUNS && start + size <= UINT_MAX
    ensures Canonical(DelRuns(s, start, size)) && |DelRuns(s, start, size)| <= MAX_RUNS
    ensures forall x :: Has(DelRuns(s, start, size), x) ==> Has(s, x)
  {
    DelFromSize(s, 0, start, size);
    if 0 < size {
      if i :| SplitsAt(s, i, start, size) && |s| == MAX_RUNS {
        SplitAtCapacity(s, i, start, size);
      } else {
        DelEffect(s, start, size);
        if i :| StopsAt(s, i, start, size) {
          assert IsDifference(DelRuns(s, start, size), s, start, s[i].End());
        }
      }
    }
  }

  lemma {:induction false} DelAllOnlyTakes(a: seq<BlockInterval>, ops: seq<BlockInterval>, k: nat)
    requires Canonical(a) && |a| <= MAX_RUNS && NoWrap(ops) && k <= |ops|
    ensures Canonical(DelAll(a, ops)) && |DelAll(a, ops)| <= MAX_RUNS
    ensures forall x :: Has(DelAll(a, ops), x) ==> Has(DelAll(a, ops[..k]), x)
    decreases |ops|
  {
    if k == |ops| && ops == [] {
    } else if k == |ops| {
      assert ops[..k] == ops;
      DelAllOnlyTakes(a, ops[..k - 1], 0);
      DelOnlyTakes(DelAll(a, ops[..k - 1]), ops[k - 1].start, ops[k - 1].size);
    } else {
      var n := |ops| - 1;
      DelAllOnlyTakes(a, ops[..n], k);
      assert ops[..n][..k] == ops[..k];
      DelOnlyTakes(DelAll(a, ops[..n]), ops[n].start, ops[n].size);
    }
  }

  /** A covered stretch is refused exactly if it needs a split for which there is no room. */
  lemma CoveredIsRefusedIff(s: seq<BlockInterval>, b: BlockInterval)
    requires Canonical(s) && |s| <= MAX_RUNS && b.Sound()
    requires forall x :: b.Contains(x) ==> Has(s, x)
    ensures !DelAccepts(s, b.start, b.size) <==> |s| == MAX_RUNS && MustSplit(s, b.start, b.size)
  {
    forall x | b.start <= x < b.start + b.size
      ensures Has(s, x)
    {
      assert b.Contains(x);
    }
    var i := CoveredStretch(s, b.start, b.start + b.size);
    forall k | StopsAt(s, k, b.start, b.size)
      ensures k + 1 == |s| || b.start + b.size <= s[k + 1].start
    {
      UniqueStop(s, k, b.start, b.size);
      assert s[k].Sound() && s[i].Sound();
      assert k == i;
    }
  }

  /** A refused split loses the block behind the interval. */
  lemma RefusedLosesNext(s: seq<BlockInterval>, b: BlockInterval)
    requires Canonical(s) && |s| == MAX_RUNS && b.Sound() && MustSplit(s, b.start, b.size)
    ensures Has(s, b.End()) && !Has(DelRuns(s, b.start, b.size), b.End())
  {
    var i :| SplitsAt(s, i, b.start, b.size);
    SplitAtCapacity(s, i, b.start, b.size);
    assert s[i].Contains(b.End());
  }

  /** The runs before run k hold no block of it nor of its end; neither does any other run. */
  lemma ApartFromOthers(b: seq<BlockInterval>, k: nat)
    requires Canonical(b) && k < |b|
    ensures !Has(b, b[k].End())
    ensures forall x :: b[k].Contains(x) ==> Has(b, x) && !Has(b[..k], x) && !Has(b[k + 1..], x)
    ensures forall x :: Has(b[..k], x) ==> Has(b, x)
  {
    assert b[k].Sound();
    forall i | 0 <= i < |b|
      ensures !b[i].Contains(b[k].End())
      ensures i != k ==> forall x :: b[k].Contains(x) ==> !b[i].Contains(x)
    {
      assert b[i].Sound();
    }
    forall x | Has(b[..k], x)
      ensures Has(b, x)
    {
      var i :| 0 <= i < k && b[..k][i].Contains(x);
      assert b[i].Contains(x);
    }
    forall x | b[k].Contains(x)
      ensures Has(b, x) && !Has(b[..k], x) && !Has(b[k + 1..], x)
    {
      forall i | 0 <= i < k
        ensures !b[..k][i].Contains(x)
      {
        assert b[..k][i] == b[i];
      }
      var rest := b[k + 1..];
      forall i | 0 <= i < |rest|
        ensures !rest[i].Contains(x)
      {
        assert rest[i] == b[k + 1 + i];
      }
    }
  }

  /** Deleting some runs of a contained array leaves the next one covered. */
  lemma StillCovered(t: seq<BlockInterval>, a: seq<BlockInterval>, b: seq<BlockInterval>, k: nat)
    requires Canonical(b) && k < |b| && forall x :: Has(b, x) ==> Has(a, x)
    requires IsDifferenceAll(t, a, b[..k])
    ensures b[k].Sound() && forall x :: b[k].Contains(x) ==> Has(t, x)
  {
    ApartFromOthers(b, k);
  }

  /** A refused run of a contained array costs the block behind it, which the array of runs does not hold. */
  lemma RefusalCosts(t: seq<BlockInterval>, a: seq<BlockInterval>, b: seq<BlockInterval>, k: nat)
    requires Canonical(t) && |t| <= MAX_RUNS && Canonical(b) && k < |b| && forall x :: Has(b, x) ==> Has(a, x)
    requires IsDifferenceAll(t, a, b[..k]) && !DelAccepts(t, b[k].start, b[k].size)
    ensures var x := b[k].End(); Has(a, x) && !Has(b, x) && !Has(DelRuns(t, b[k].start, b[k].size), x)
  {
    StillCovered(t, a, b, k);
    CoveredIsRefusedIff(t, b[k]);
    RefusedLosesNext(t, b[k]);
    ApartFromOthers(b, k);
  }

  /** The first refusal among the runs of a contained array costs a block for good. */
  lemma {:induction false} FirstRefusal(a: seq<BlockInterval>, b: seq<BlockInterval>, k: nat)
    requires Canonical(a) && |a| <= MAX_RUNS && Canonical(b) && k < |b| && forall x :: Has(b, x) ==> Has(a, x)
    requires IsDifferenceAll(DelAll(a, b[..k]), a, b[..k]) && !DelAccepts(DelAll(a, b[..k]), b[k].start, b[k].size)
    ensures Has(a, b[k].End()) && !Has(b, b[k].End()) && !Has(DelAll(a, b), b[k].End())
  {
    DelAllBounded(a, b[..k]);
    RefusalCosts(DelAll(a, b[..k]), a, b, k);
    assert b[..k + 1][..k] == b[..k];
    DelAllOnlyTakes(a, b, k + 1);
  }

  /** The first interval that is refused. */
  lemma {:induction false} FindRefusal(a: seq<BlockInterval>, ops: seq<BlockInterval>, n: nat) returns (k: nat)
    requires n <= |ops| && !AllDeleted(a, ops[..n])
    ensures k < n && AllDeleted(a, ops[..k]) && !DelAccepts(DelAll(a, ops[..k]), ops[k].start, ops[k].size)
  {
    k := n - 1;
    if !AllDeleted(a, ops[..k]) {
      k := FindRefusal(a, ops, k);
    } else if DelAccepts(DelAll(a, ops[..k]), ops[k].start, ops[k].size) {
      OneMoreDeleted(a, ops, k);
    }
  }

  /** `DeleteArray` of a contained array is set difference in the end exactly if no run of it is refused. */
  lemma {:induction false} DelContainedIff(a: seq<BlockInterval>, b: seq<BlockInterval>)
    requires Canonical(a) && |a| <= MAX_RUNS && Canonical(b) && forall x :: Has(b, x) ==> Has(a, x)
    ensures IsDifferenceAll(DelAll(a, b), a, b) <==> AllDeleted(a, b)
  {
    if AllDeleted(a, b) {
      DelAllDifference(a, b);
    } else {
      assert b[..|b|] == b;
      var k := FindRefusal(a, b, |b|);
      DelAllDifference(a, b[..k]);
      FirstRefusal(a, b, k);
    }
  }

  lemma OneMoreDeleted(a: seq<BlockInterval>, ops: seq<BlockInterval>, k: nat)
    requires k < |ops| && AllDeleted(a, ops[..k]) && DelAccepts(DelAll(a, ops[..k]), ops[k].start, ops[k].size)
    ensures AllDeleted(a, ops[..k + 1]) && |DelAll(a, ops[..k + 1])| <= |DelAll(a, ops[..k])| + 1
  {
    DelFromSize(DelAll(a, ops[..k]), 0, ops[k].start, ops[k].size);
    var init, next := ops[..k], ops[..k + 1];
    assert next[..k] == init;
    forall j | 0 <= j < |next|
      ensures DelAccepts(DelAll(a, next[..j]), next[j].start, next[j].size)
    {
      assert next[..j] == ops[..j];
      assert j < k ==> init[..j] == ops[..j] && init[j] == next[j];
    }
  }

  lemma RoomForSplit(a: seq<BlockInterval>, b: seq<BlockInterval>, k: nat)
    requires Canonical(a) && |a| <= MAX_RUNS && Canonical(b) && k < |b| && forall x :: Has(b, x) ==> Has(a, x)
    requires AllDeleted(a, b[..k]) && |DelAll(a, b[..k])| < MAX_RUNS
    ensures DelAccepts(DelAll(a, b[..k]), b[k].start, b[k].size)
  {
    var t := DelAll(a, b[..k]);
    DelAllDifference(a, b[..k]);
    StillCovered(t, a, b, k);
    CoveredIsRefusedIff(t, b[k]);
  }

  /** The first n runs have been deleted, each of them costing one run slot at most. */
  ghost predicate DeletedSoFar(a: seq<BlockInterval>, b: seq<BlockInterval>, n: nat)
    requires n <= |b|
  {
    AllDeleted(a, b[..n]) && |DelAll(a, b[..n])| <= |a| + n
  }

  lemma DeletesNext(a: seq<BlockInterval>, b: seq<BlockInterval>, k: nat)
    requires Canonical(a) && Canonical(b) && k < |b| && |a| + k < MAX_RUNS && forall x :: Has(b, x) ==> Has(a, x)
    requires DeletedSoFar(a, b, k)
    ensures DeletedSoFar(a, b, k + 1)
  {
    RoomForSplit(a, b, k);
    OneMoreDeleted(a, b, k);
  }

  /** Arrays that leave a run slot for every run of b never refuse one of a contained b. */
  lemma {:induction false} RoomyArrayDeletes(a: seq<BlockInterval>, b: seq<BlockInterval>, n: nat)
    requires Canonical(a) && Canonical(b) && n <= |b| && |a| + n <= MAX_RUNS && forall x :: Has(b, x) ==> Has(a, x)
    ensures DeletedSoFar(a, b, n)
  {
    if 0 < n {
      RoomyArrayDeletes(a, b, n - 1);
      DeletesNext(a, b, n - 1);
    }
  }

  // ---------------------------------------------------------------- deleting and restoring

  /** Deleted blocks that the array held come back with the intervals. */
  lemma RestoredSet(a: seq<BlockInterval>, t: seq<BlockInterval>, r: seq<BlockInterval>, b: seq<BlockInterval>)
    requires Canonical(a) && forall x :: Has(b, x) ==> Has(a, x)
    requires IsDifferenceAll(t, a, b) && IsUnionAll(r, t, b)
    ensures r == a
  {
    CanonicalUnique(r, a);
  }

  lemma RefusedAddsNothing(u: seq<BlockInterval>, b: BlockInterval)
    requires Canonical(u) && |u| <= MAX_RUNS && b.Sound() && !AddAccepts(u, b.start, b.size)
    ensures AddRuns(u, b.start, b.size) == u && !Has(u, b.start)
  {
    AddRefusedAtCapacity(u, b.start, b.size);
    forall i | 0 <= i < |u|
      ensures !u[i].Contains(b.start)
    {
      assert u[i].Sound();
    }
  }

  /** An interval that adds nothing at its turn may be left out. */
  lemma SkippedInterval(t: seq<BlockInterval>, ops: seq<BlockInterval>, k: nat)
    requires k < |ops| && AddRuns(AddAll(t, ops[..k]), ops[k].start, ops[k].size) == AddAll(t, ops[..k])
    ensures AddAll(t, ops) == AddAll(AddAll(t, ops[..k]), ops[k + 1..])
  {
    assert ops[..k + 1][..k] == ops[..k];
    AddAllConcat(t, ops[..k + 1], ops[k + 1..]);
    assert ops[..k + 1] + ops[k + 1..] == ops;
  }

  /** An interval that was refused at its turn is missing in the end if no later one holds its first block. */
  lemma RefusedIsMissing(t: seq<BlockInterval>, b: seq<BlockInterval>, k: nat)
    requires Canonical(t) && |t| <= MAX_RUNS && Canonical(b) && k < |b|
    requires !AddAccepts(AddAll(t, b[..k]), b[k].start, b[k].size)
    ensures !Has(AddAll(t, b), b[k].start)
  {
    var u, rest := AddAll(t, b[..k]), b[k + 1..];
    CanonicalSuffix(b, k);
    CanonicalSuffix(b, k + 1);
    AddAllSound(t, b[..k]);
    assert b[k].Sound();
    RefusedAddsNothing(u, b[k]);
    SkippedInterval(t, b, k);
    AddAllSound(u, rest);
    ApartFromOthers(b, k);
    assert b[k].Contains(b[k].start);
  }

  /**
   Deleting the runs of a contained array and inserting them again restores the array if and only
   if no deletion is refused for want of a run slot, and no insertion afterwards.
   */
  lemma {:induction false} DeleteThenRestore(a: seq<BlockInterval>, b: seq<BlockInterval>)
    requires Canonical(a) && |a| <= MAX_RUNS && Canonical(b) && forall x :: Has(b, x) ==> Has(a, x)
    ensures AddAll(DelAll(a, b), b) == a <==> AllDeleted(a, b) && AllAccepted(DelAll(a, b), b)
  {
    var t := DelAll(a, b);
    DelAllBounded(a, b);
    assert NoWrap(b);
    DelAllOnlyTakes(a, b, 0);
    if !AllDeleted(a, b) {
      assert b[..|b|] == b;
      var k := FindRefusal(a, b, |b|);
      DelAllDifference(a, b[..k]);
      FirstRefusal(a, b, k);
      AddAllSound(t, b);
    } else if !AllAccepted(t, b) {
      var k :| 0 <= k < |b| && !AddAccepts(AddAll(t, b[..k]), b[k].start, b[k].size);
      RefusedIsMissing(t, b, k);
      ApartFromOthers(b, k);
      assert b[k].Sound() && b[k].Contains(b[k].start);
    } else {
      DelAllDifference(a, b);
      AddAllUnion(t, b);
      RestoredSet(a, t, AddAll(t, b), b);
    }
  }

  lemma CanonicalSuffix(b: seq<BlockInterval>, k: nat)
    requires Canonical(b) && k <= |b|
    ensures Canonical(b[k..]) && Canonical(b[..k])
    ensures forall x :: Has(b, x) <==> Has(b[..k], x) || Has(b[k..], x)
    ensures k < |b| ==> forall x :: Has(b[..k], x) ==> x < b[k].start
    ensures k < |b| ==> forall x :: Has(b[k..], x) ==> b[k].start <= x
  {
    forall x
      ensures Has(b, x) <==> Has(b[..k], x) || Has(b[k..], x)
      ensures k < |b| && Has(b[..k], x) ==> x < b[k].start
      ensures k < |b| && Has(b[k..], x) ==> b[k].start <= x
    {
      if Has(b, x) {
        var i :| 0 <= i < |b| && b[i].Contains(x);
        assert if i < k then b[..k][i].Contains(x) else b[k..][i - k].Contains(x);
      }
      if Has(b[..k], x) {
        var i :| 0 <= i < k && b[..k][i].Contains(x);
        assert b[i].Contains(x) && b[i].Sound();
      }
      if Has(b[k..], x) {
        var j :| 0 <= j < |b[k..]| && b[k..][j].Contains(x);
        assert b[j + k].Contains(x) && b[k].Sound();
      }
    }
  }

  /** Half restored, the array is what deleting only the other half would have left, and no longer. */
  lemma HalfRestored(a: seq<BlockInterval>, t: seq<BlockInterval>, u: seq<BlockInterval>, b: seq<BlockInterval>, k: nat)
    requires Canonical(a) && Canonical(b) && k <= |b| && |a| + |b| <= MAX_RUNS && forall x :: Has(b, x) ==> Has(a, x)
    requires IsDifferenceAll(t, a, b) && IsUnionAll(u, t, b[..k])
    ensures |u| <= |a| + |b| - k
  {
    CanonicalSuffix(b, k);
    var rest := b[k..];
    RoomyArrayDeletes(a, rest, |rest|);
    assert rest[..|rest|] == rest;
    DelAllDifference(a, rest);
    forall x
      ensures Has(u, x) <==> Has(DelAll(a, rest), x)
    {
    }
    CanonicalUnique(u, DelAll(a, rest));
  }

  lemma {:induction false} RoomyArrayAccepts(a: seq<BlockInterval>, t: seq<BlockInterval>, b: seq<BlockInterval>,
                                             n: nat)
    requires Canonical(a) && Canonical(b) && |a| + |b| < MAX_RUNS && forall x :: Has(b, x) ==> Has(a, x)
    requires |t| <= MAX_RUNS && IsDifferenceAll(t, a, b) && n <= |b|
    ensures AllAccepted(t, b[..n])
  {
    if 0 < n {
      var k := n - 1;
      RoomyArrayAccepts(a, t, b, k);
      AddAllUnion(t, b[..k]);
      HalfRestored(a, t, AddAll(t, b[..k]), b, k);
      assert b[k].Sound();
      OneMoreAccepted(t, b, k);
    }
  }

  /** With a run slot to spare for every deleted run, and one more, nothing is refused. */
  lemma RoomyArrayRestores(a: seq<BlockInterval>, b: seq<BlockInterval>)
    requires Canonical(a) && Canonical(b) && |a| + |b| < MAX_RUNS && forall x :: Has(b, x) ==> Has(a, x)
    ensures AddAll(DelAll(a, b), b) == a
  {
    assert b[..|b|] == b;
    RoomyArrayDeletes(a, b, |b|);
    DelAllDifference(a, b);
    RoomyArrayAccepts(a, DelAll(a, b), b, |b|);
    DeleteThenRestore(a, b);
  }

  // ---------------------------------------------------------------- intersection of two runs

  /** `BlockInterval::and_op`. */
  function AndOp(a: BlockInterval, b: BlockInterval): BlockInterval {
    var start := Max(a.start, b.start);
    var end := Min(a.End(), b.End());
    BlockInterval(start, if end > start then end - start else 0)
  }

  lemma AndOpIsIntersection(a: BlockInterval, b: BlockInterval)
    requires a.start + a.size <= UINT_MAX && b.start + b.size <= UINT_MAX
    ensures forall x :: AndOp(a, b).Contains(x) <==> a.Contains(x) && b.Contains(x)
    ensures AndOp(a, b).start + AndOp(a, b).size <= UINT_MAX
    ensures 0 < AndOp(a, b).size <==>
            a.start < b.start + b.size && b.start < a.start + a.size && 0 < a.size && 0 < b.size
  {
  }

  /** Overlapping pairs met in row order form a staircase: the index sum grows at every step. */
  lemma Staircase(a: seq<BlockInterval>, b: seq<BlockInterval>, j: nat, i: nat, j': nat, i': nat)
    requires Canonical(a) && Canonical(b) && j < |a| && j' < |a| && i < |b| && i' < |b|
    requires 0 < AndOp(a[j], b[i]).size && 0 < AndOp(a[j'], b[i']).size
    requires i < i' || (i == i' && j < j')
    ensures i + j < i' + j'
  {
    assert a[j].Sound() && a[j'].Sound() && b[i].Sound() && b[i'].Sound();
    AndOpIsIntersection(a[j], b[i]);
    AndOpIsIntersection(a[j'], b[i']);
  }

  // ---------------------------------------------------------------- counting

  /** The blocks of the set in [lo, hi). */
  ghost function BlocksIn(s: seq<BlockInterval>, lo: int, hi: int): set<int> {
    set x | lo <= x < hi && Has(s, x)
  }

  ghost function Span(lo: int, hi: int): (r: set<int>)
    ensures forall x :: x in r <==> lo <= x < hi
    ensures |r| == if lo <= hi then hi - lo else 0
    decreases hi - lo
  {
    if hi <= lo then {} else Span(lo, hi - 1) + {hi - 1}
  }

  /** The set before a run and the run itself share no block. */
  lemma PrefixStep(s: seq<BlockInterval>, i: nat)
    requires Canonical(s) && i < |s|
    ensures forall x :: Has(s[..i + 1], x) <==> Has(s[..i], x) || s[i].Contains(x)
    ensures forall x :: !(Has(s[..i], x) && s[i].Contains(x))
  {
    HasLast(s[..i + 1]);
    assert s[..i + 1][..i] == s[..i];
    CanonicalSuffix(s, i);
  }

  /** One more run adds the size of its intersection with [lo, hi) to the count. */
  lemma CountStep(s: seq<BlockInterval>, i: nat, range: BlockInterval)
    requires Canonical(s) && i < |s| && range.start + range.size <= UINT_MAX
    ensures var lo, hi := range.start, range.start + range.size;
            |BlocksIn(s[..i + 1], lo, hi)| == |BlocksIn(s[..i], lo, hi)| + AndOp(s[i], range).size
  {
    var lo, hi := range.start, range.start + range.size;
    var p := AndOp(s[i], range);
    assert s[i].Sound();
    AndOpIsIntersection(s[i], range);
    PrefixStep(s, i);
    DisjointCount(BlocksIn(s[..i + 1], lo, hi), BlocksIn(s[..i], lo, hi), p);
  }

  lemma DisjointCount(a: set<int>, b: set<int>, p: BlockInterval)
    requires forall x :: x in a <==> x in b || p.Contains(x)
    requires forall x :: x in b ==> !p.Contains(x)
    ensures |a| == |b| + p.size
  {
    var piece := Span(p.start, p.start + p.size);
    assert forall x :: x in piece <==> p.Contains(x);
    assert a == b + piece && b !! piece;
  }

  lemma CountBound(s: seq<BlockInterval>, lo: int, hi: int)
    requires lo <= hi
    ensures |BlocksIn(s, lo, hi)| <= hi - lo
  {
    SubsetSize(BlocksIn(s, lo, hi), Span(lo, hi));
  }

  lemma {:induction false} SubsetSize(a: set<int>, b: set<int>)
    requires a <= b
    ensures |a| <= |b|
  {
    assert b == a + (b - a);
  }

  // ---------------------------------------------------------------- self-check and order

  /** Checking neighbours is enough to know that every pair of runs is in order. */
  lemma {:induction false} NeighboursSuffice(s: seq<BlockInterval>)
    requires forall i :: 0 <= i < |s| ==> s[i].Sound()
    requires forall i :: 0 <= i < |s| - 1 ==> s[i].End() < s[i + 1].start
    ensures Canonical(s)
  {
    if s != [] {
      var n := |s| - 1;
      var init := s[..n];
      NeighboursSuffice(init);
      forall i, j | 0 <= i < j < |s|
        ensures s[i].End() < s[j].start
      {
        if j < n {
          assert init[i].End() < init[j].start;
        } else if i < n - 1 {
          assert init[i].End() < init[n - 1].start && s[n - 1].Sound();
        }
      }
    }
  }

  ghost predicate SortedByStart(t: seq<BlockInterval>) {
    forall i, j :: 0 <= i < j < |t| ==> t[i].start <= t[j].start
  }

  lemma SameLast(s: seq<BlockInterval>, t: seq<BlockInterval>)
    requires Canonical(s) && s != [] && t != [] && multiset(t) == multiset(s) && SortedByStart(t)
    ensures t[|t| - 1] == s[|s| - 1]
  {
    var a, b := t[|t| - 1], s[|s| - 1];
    assert a in multiset(t) && b in multiset(s);
    var j :| 0 <= j < |s| && s[j] == a;
    var k :| 0 <= k < |t| && t[k] == b;
    assert s[j].Sound();
  }

  lemma SameInit(s: seq<BlockInterval>, t: seq<BlockInterval>)
    requires s != [] && t != [] && multiset(t) == multiset(s) && t[|t| - 1] == s[|s| - 1]
    ensures multiset(t[..|t| - 1]) == multiset(s[..|s| - 1])
  {
    assert t == t[..|t| - 1] + [t[|t| - 1]];
    assert s == s[..|s| - 1] + [s[|s| - 1]];
    assert multiset(t[..|t| - 1]) == multiset(t) - multiset{t[|t| - 1]};
    assert multiset(s[..|s| - 1]) == multiset(s) - multiset{s[|s| - 1]};
  }

  /** Sorting by start a permutation of a canonical list gives the list back. */
  lemma {:induction false} SortedPermutation(s: seq<BlockInterval>, t: seq<BlockInterval>)
    requires Canonical(s) && multiset(t) == multiset(s) && SortedByStart(t)
    ensures t == s
  {
    assert |t| == |multiset(t)| == |multiset(s)| == |s|;
    if s != [] {
      SameLast(s, t);
      SameInit(s, t);
      SortedPermutation(s[..|s| - 1], t[..|t| - 1]);
      assert t == t[..|t| - 1] + [t[|t| - 1]];
      assert s == s[..|s| - 1] + [s[|s| - 1]];
    }
  }

  lemma {:induction false} DistinctRuns(s: seq<BlockInterval>)
    requires Canonical(s)
    ensures forall b :: multiset(s)[b] <= 1
  {
    if s != [] {
      var n := |s| - 1;
      DistinctRuns(s[..n]);
      assert s == s[..n] + [s[n]];
      forall k | 0 <= k < n
        ensures s[k] != s[n]
      {
        assert s[k].End() < s[n].start && s[k].Sound();
      }
      assert s[n] !in s[..n];
    }
  }

  lemma DistinctSelected(s: seq<BlockInterval>, t: seq<BlockInterval>, i: nat, j: nat)
    requires Canonical(s) && multiset(t) <= multiset(s) && i < j < |t|
    ensures t[i] != t[j]
  {
    DistinctRuns(s);
    assert t == t[..j] + t[j..];
    assert t[..j][i] in multiset(t[..j]);
    assert t[j..][0] in multiset(t[j..]);
    assert multiset(t) == multiset(t[..j]) + multiset(t[j..]);
    assert multiset(t)[t[i]] <= multiset(s)[t[i]] <= 1;
  }

  /** Runs picked from a canonical list, in start order, are canonical. */
  lemma CanonicalSelection(s: seq<BlockInterval>, t: seq<BlockInterval>)
    requires Canonical(s) && multiset(t) <= multiset(s) && SortedByStart(t)
    ensures Canonical(t)
  {
    forall i | 0 <= i < |t|
      ensures t[i].Sound() && t[i] in s
    {
      assert t[i] in multiset(t);
      assert t[i] in multiset(s);
    }
    forall i, j | 0 <= i < j < |t|
      ensures t[i].End() < t[j].start
    {
      var k :| 0 <= k < |s| && s[k] == t[i];
      var l :| 0 <= l < |s| && s[l] == t[j];
      DistinctSelected(s, t, i, j);
      assert s[k].Sound() && s[l].Sound();
    }
  }
}
