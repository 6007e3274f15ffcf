/** `DelInterval`: removing an interval from a run list, splitting and trimming runs. */
module RunDeletion {
  import opened Words
  import opened Runs
  import opened RunInsertion

  // ---------------------------------------------------------------- the recursion's measure

  /** Runs plus covered blocks: run count alone does not decrease when a run is only trimmed. */
  function Weight(s: seq<BlockInterval>): nat {
    if s == [] then 0 else s[0].size + 1 + Weight(s[1..])
  }

  lemma {:induction false} WeightUpdate(s: seq<BlockInterval>, i: nat, b: BlockInterval)
    requires i < |s|
    ensures Weight(s[i := b]) == Weight(s) - s[i].size + b.size
  {
    if i == 0 {
      assert s[0 := b][1..] == s[1..];
    } else {
      WeightUpdate(s[1..], i - 1, b);
      assert s[i := b][1..] == s[1..][i - 1 := b];
    }
  }

  lemma {:induction false} WeightRemove(s: seq<BlockInterval>, i: nat)
    requires i < |s|
    ensures Weight(Remove(s, i)) == Weight(s) - s[i].size - 1
  {
    if i == 0 {
      assert Remove(s, 0) == s[1..];
    } else {
      WeightRemove(s[1..], i - 1);
      assert Remove(s, i) == [s[0]] + Remove(s[1..], i - 1);
    }
  }

  // ---------------------------------------------------------------- deletion

  function DelRuns(s: seq<BlockInterval>, start: u32, size: u32): seq<BlockInterval>
    decreases Weight(s), |s| + 1
  {
    if size == 0 then s else DelFrom(s, 0, start, size)
  }

  /** The scan of `DelInterval` from run i on. */
  function DelFrom(s: seq<BlockInterval>, i: nat, start: u32, size: u32): seq<BlockInterval>
    requires i <= |s|
    decreases Weight(s), |s| - i
  {
    var end := Add32(start, size);
    if i == |s| then
      s
    else if s[i].start > start then
      if s[i].start > end then
        s
      else if s[i].End() > end then
        s[i := BlockInterval(end, Sub32(s[i].End(), end))]
      else
        WeightRemove(s, i);
        DelRuns(Remove(s, i), start, size)
    else if s[i].End() > start then
      var front := BlockInterval(s[i].start, start - s[i].start);
      if s[i].End() <= end then
        if s[i].start != start then
          WeightUpdate(s, i, front);
          DelRuns(s[i := front], start, size)
        else
          Remove(s, i)
      else if s[i].start == start then
        s[i := BlockInterval(end, Sub32(s[i].size, Sub32(end, s[i].start)))]
      else
        Insert(s[i := front], i + 1, BlockInterval(end, Sub32(s[i].End(), end)))
    else
      DelFrom(s, i + 1, start, size)
  }

  /** A run that begins exactly at `start` and ends inside the interval stops the deletion. */
  ghost predicate StopsAt(s: seq<BlockInterval>, i: int, start: u32, size: u32) {
    0 <= i < |s| && s[i].start == start && s[i].End() <= start + size
  }

  /** A run that reaches past the interval on both sides has to be split. */
  ghost predicate SplitsAt(s: seq<BlockInterval>, i: int, start: u32, size: u32) {
    0 <= i < |s| && s[i].start < start && start + size < s[i].End()
  }

  ghost predicate StopsEarly(s: seq<BlockInterval>, start: u32, size: u32) {
    exists i :: StopsAt(s, i, start, size)
  }

  ghost predicate MustSplit(s: seq<BlockInterval>, start: u32, size: u32) {
    exists i :: SplitsAt(s, i, start, size)
  }

  // ---------------------------------------------------------------- single steps

  lemma RemoveDifference(s: seq<BlockInterval>, i: nat)
    requires i < |s| && Canonical(s)
    ensures IsDifference(Remove(s, i), s, s[i].start, s[i].End())
  {
    assert s[i].Sound();
    HasRemove(s, i);
    CanonicalRemove(s, i);
    forall x
      ensures Has(Remove(s, i), x) <==> Has(s, x) && !(s[i].start <= x < s[i].End())
    {
      assert s[i].Contains(x) <==> s[i].start <= x < s[i].End();
    }
  }

  /** Keeping only the part of run i below lo. */
  lemma TrimTail(s: seq<BlockInterval>, i: nat, lo: u32)
    requires i < |s| && Canonical(s) && s[i].start < lo < s[i].End()
    ensures IsDifference(s[i := BlockInterval(s[i].start, lo - s[i].start)], s, lo, s[i].End())
  {
    var b := BlockInterval(s[i].start, lo - s[i].start);
    assert s[i].Sound();
    CanonicalUpdate(s, i, b);
    HasUpdate(s, i, b);
    forall x
      ensures Has(s[i := b], x) <==> Has(s, x) && !(lo <= x < s[i].End())
    {
      assert b.Contains(x) <==> s[i].Contains(x) && x < lo;
      if Has(s, x) && lo <= x < s[i].End() {
        assert s[i].Contains(x);
      }
      if b.Contains(x) {
        assert s[i].Contains(x);
      }
    }
  }

  /** Keeping only the part of run i from hi on, when no run before it reaches beyond lo. */
  lemma TrimHead(s: seq<BlockInterval>, i: nat, lo: u32, hi: u32)
    requires i < |s| && Canonical(s) && lo <= s[i].start <= hi < s[i].End()
    requires 0 < i ==> s[i - 1].End() <= lo
    ensures IsDifference(s[i := BlockInterval(hi, s[i].End() - hi)], s, lo, hi)
  {
    var b := BlockInterval(hi, s[i].End() - hi);
    assert s[i].Sound();
    CanonicalUpdate(s, i, b);
    HasUpdate(s, i, b);
    forall x
      ensures Has(s[i := b], x) <==> Has(s, x) && !(lo <= x < hi)
    {
      assert b.Contains(x) <==> s[i].Contains(x) && hi <= x;
      if b.Contains(x) {
        assert s[i].Contains(x);
      }
      if Has(s, x) && lo <= x < hi {
        var k :| 0 <= k < |s| && s[k].Contains(x);
        EndsBefore(s, i, k, lo);
        assert s[k].Sound();
      }
    }
  }

  lemma EndsBefore(s: seq<BlockInterval>, i: nat, k: nat, lo: int)
    requires Canonical(s) && i <= |s| && k < |s|
    requires 0 < i ==> s[i - 1].End() <= lo
    ensures k < i ==> s[k].End() <= lo
  {
    if k < i - 1 {
      assert s[k].End() < s[i - 1].start && s[i - 1].Sound();
    }
  }

  /** Cutting [lo, hi) out of the middle of run i. */
  lemma SplitDifference(s: seq<BlockInterval>, i: nat, lo: u32, hi: u32)
    requires i < |s| && |s| != MAX_RUNS && Canonical(s) && s[i].start < lo < hi < s[i].End()
    ensures IsDifference(Insert(s[i := BlockInterval(s[i].start, lo - s[i].start)], i + 1,
                                BlockInterval(hi, s[i].End() - hi)), s, lo, hi)
  {
    var t := s[i := BlockInterval(s[i].start, lo - s[i].start)];
    var b := BlockInterval(hi, s[i].End() - hi);
    assert s[i].Sound();
    TrimTail(s, i, lo);
    assert t[i].Sound();
    InsertUnion(t, i + 1, b);
    forall x
      ensures Has(Insert(t, i + 1, b), x) <==> Has(s, x) && !(lo <= x < hi)
    {
      if hi <= x < s[i].End() {
        assert s[i].Contains(x);
      }
    }
  }

  /** Two deletions, the first inside the second, are the second. */
  lemma DeleteInside(r: seq<BlockInterval>, t: seq<BlockInterval>, s: seq<BlockInterval>,
                     a: int, b: int, lo: int, hi: int)
    requires IsDifference(t, s, a, b) && IsDifference(r, t, lo, hi) && lo <= a && b <= hi
    ensures IsDifference(r, s, lo, hi)
  {
  }

  // ---------------------------------------------------------------- the effect of the whole scan

  /** All runs before i end at or before lo, so the scan has passed over them. */
  ghost predicate Passed(s: seq<BlockInterval>, i: nat, lo: int) {
    i <= |s| && (0 < i ==> s[i - 1].End() <= lo)
  }

  lemma NothingToDelete(s: seq<BlockInterval>, i: nat, lo: int, hi: int)
    requires Canonical(s) && Passed(s, i, lo) && (i < |s| ==> hi <= s[i].start)
    ensures IsDifference(s, s, lo, hi)
  {
    forall x | Has(s, x)
      ensures !(lo <= x < hi)
    {
      var k :| 0 <= k < |s| && s[k].Contains(x);
      assert s[k].Sound();
      EndsBefore(s, i, k, lo);
      if i < k {
        assert s[i].Sound();
      }
    }
  }

  /** A run that starts beyond `start` rules out both special cases. */
  lemma NoRunAtStart(s: seq<BlockInterval>, i: nat, start: u32, size: u32)
    requires Canonical(s) && Passed(s, i, start) && (i < |s| ==> start < s[i].start)
    ensures !StopsEarly(s, start, size) && !MustSplit(s, start, size)
  {
    forall k | 0 <= k < |s|
      ensures !StopsAt(s, k, start, size) && !SplitsAt(s, k, start, size)
    {
      assert s[k].Sound();
      EndsBefore(s, i, k, start);
      if i < k {
        assert s[i].Sound();
      }
    }
  }

  /** The run that contains `start`, if there is one, decides both special cases. */
  lemma RunAtStart(s: seq<BlockInterval>, i: nat, start: u32, size: u32)
    requires Canonical(s) && i < |s| && s[i].start <= start < s[i].End()
    ensures StopsEarly(s, start, size) <==> StopsAt(s, i, start, size)
    ensures MustSplit(s, start, size) <==> SplitsAt(s, i, start, size)
  {
    assert s[i].Sound();
    forall k | 0 <= k < |s| && k != i
      ensures !StopsAt(s, k, start, size) && !SplitsAt(s, k, start, size)
    {
      assert s[k].Sound();
      if k < i {
        assert s[k].End() < s[i].start;
      } else {
        assert s[i].End() < s[k].start;
      }
    }
  }

  /** Without the two special cases the scan removes exactly the interval. */
  lemma {:induction false} DelFromDifference(s: seq<BlockInterval>, i: nat, start: u32, size: u32)
    requires Canonical(s) && Passed(s, i, start) && 0 < size && start + size <= UINT_MAX
    requires !StopsEarly(s, start, size)
    requires MustSplit(s, start, size) ==> |s| != MAX_RUNS
    ensures IsDifference(DelFrom(s, i, start, size), s, start, start + size)
    decreases Weight(s), |s| - i
  {
    var end := start + size;
    if i == |s| || s[i].start > end {
      NothingToDelete(s, i, start, end);
    } else if s[i].start > start {
      DelBeyondStart(s, i, start, size);
    } else if s[i].End() <= start {
      assert s[i].Sound();
      DelFromDifference(s, i + 1, start, size);
    } else {
      RunAtStart(s, i, start, size);
      DelAtStart(s, i, start, size);
    }
  }

  /** The run begins inside the interval, or with it, and reaches beyond it. */
  lemma DelHead(s: seq<BlockInterval>, i: nat, start: u32, size: u32)
    requires Canonical(s) && Passed(s, i, start) && 0 < size && start + size <= UINT_MAX
    requires i < |s| && start <= s[i].start <= start + size < s[i].End()
    ensures IsDifference(DelFrom(s, i, start, size), s, start, start + size)
  {
    var end := start + size;
    assert s[i].Sound();
    assert DelFrom(s, i, start, size) == s[i := BlockInterval(end, s[i].End() - end)];
    TrimHead(s, i, start, end);
  }

  lemma DelSwallowedResult(s: seq<BlockInterval>, i: nat, start: u32, size: u32)
    requires i < |s| && 0 < size && start + size <= UINT_MAX
    requires start < s[i].start <= start + size && s[i].End() <= start + size
    ensures DelFrom(s, i, start, size) == DelRuns(Remove(s, i), start, size)
  {
  }

  lemma {:induction false} DelBeyondStart(s: seq<BlockInterval>, i: nat, start: u32, size: u32)
    requires Canonical(s) && Passed(s, i, start) && 0 < size && start + size <= UINT_MAX
    requires i < |s| && start < s[i].start <= start + size
    ensures IsDifference(DelFrom(s, i, start, size), s, start, start + size)
    decreases Weight(s), 0
  {
    if s[i].End() > start + size {
      DelHead(s, i, start, size);
    } else {
      DelSwallowedResult(s, i, start, size);
      DelSwallowed(s, i, start, size);
    }
  }

  /** A run inside the interval is deleted and the scan starts over. */
  lemma {:induction false} DelSwallowed(s: seq<BlockInterval>, i: nat, start: u32, size: u32)
    requires Canonical(s) && Passed(s, i, start) && 0 < size && start + size <= UINT_MAX
    requires i < |s| && start < s[i].start && s[i].End() <= start + size
    ensures IsDifference(DelRuns(Remove(s, i), start, size), s, start, start + size)
    decreases Weight(s), 0, 0
  {
    var t := Remove(s, i);
    assert s[i].Sound();
    WeightRemove(s, i);
    RemoveDifference(s, i);
    NoRunAtStart(t, i, start, size);
    DelFromDifference(t, 0, start, size);
    DeleteInside(DelRuns(t, start, size), t, s, s[i].start, s[i].End(), start, start + size);
  }

  /** The run reaches beyond the interval on both sides. */
  lemma DelMiddle(s: seq<BlockInterval>, i: nat, start: u32, size: u32)
    requires Canonical(s) && 0 < size && start + size <= UINT_MAX && |s| != MAX_RUNS
    requires SplitsAt(s, i, start, size)
    ensures IsDifference(DelFrom(s, i, start, size), s, start, start + size)
  {
    var end := start + size;
    assert s[i].Sound();
    assert DelFrom(s, i, start, size) ==
           Insert(s[i := BlockInterval(s[i].start, start - s[i].start)], i + 1, BlockInterval(end, s[i].End() - end));
    SplitDifference(s, i, start, end);
  }

  lemma DelTailResult(s: seq<BlockInterval>, i: nat, start: u32, size: u32)
    requires i < |s| && s[i].Sound() && 0 < size && start + size <= UINT_MAX
    requires s[i].start < start < s[i].End() <= start + size
    ensures DelFrom(s, i, start, size) == DelRuns(s[i := BlockInterval(s[i].start, start - s[i].start)], start, size)
  {
  }

  lemma {:induction false} DelAtStart(s: seq<BlockInterval>, i: nat, start: u32, size: u32)
    requires Canonical(s) && 0 < size && start + size <= UINT_MAX
    requires i < |s| && s[i].start <= start < s[i].End()
    requires Passed(s, i, start)
    requires !StopsAt(s, i, start, size)
    requires SplitsAt(s, i, start, size) ==> |s| != MAX_RUNS
    ensures IsDifference(DelFrom(s, i, start, size), s, start, start + size)
    decreases Weight(s), 0
  {
    if s[i].start == start {
      DelHead(s, i, start, size);
    } else if start + size < s[i].End() {
      DelMiddle(s, i, start, size);
    } else {
      assert s[i].Sound();
      DelTailResult(s, i, start, size);
      DelBeyondEnd(s, i, start, size);
    }
  }

  /** The run that contains `start` is trimmed and the scan starts over. */
  lemma {:induction false} DelBeyondEnd(s: seq<BlockInterval>, i: nat, start: u32, size: u32)
    requires Canonical(s) && 0 < size && start + size <= UINT_MAX
    requires i < |s| && s[i].start < start < s[i].End() <= start + size
    ensures var t := s[i := BlockInterval(s[i].start, start - s[i].start)];
            IsDifference(DelRuns(t, start, size), s, start, start + size)
    decreases Weight(s), 0, 0
  {
    var end := start + size;
    assert s[i].Sound();
    var t := s[i := BlockInterval(s[i].start, start - s[i].start)];
    WeightUpdate(s, i, t[i]);
    TrimTail(s, i, start);
    NoRunAtStart(t, i + 1, start, size);
    DelFromDifference(t, 0, start, size);
    DeleteInside(DelRuns(t, start, size), t, s, start, s[i].End(), start, end);
  }

  // ---------------------------------------------------------------- exact effect, and when it is set difference

  lemma {:induction false} DelFromSkips(s: seq<BlockInterval>, j: nat, i: nat, start: u32, size: u32)
    requires Canonical(s) && j <= i && Passed(s, i, start)
    ensures DelFrom(s, j, start, size) == DelFrom(s, i, start, size)
    decreases i - j
  {
    if j < i {
      assert s[j].Sound();
      EndsBefore(s, i, j, start);
      DelFromSkips(s, j + 1, i, start, size);
    }
  }

  /** The run that contains `start` is the one the scan stops at. */
  lemma ScanStopsAt(s: seq<BlockInterval>, i: nat, start: u32, size: u32)
    requires Canonical(s) && i < |s| && s[i].start <= start < s[i].End() && 0 < size
    ensures Passed(s, i, start)
    ensures DelRuns(s, start, size) == DelFrom(s, i, start, size)
  {
    assert s[i].Sound();
    if 0 < i {
      assert s[i - 1].End() < s[i].start;
    }
    DelFromSkips(s, 0, i, start, size);
  }

  /**
   What `DelInterval` removes: the whole interval, or only the run that begins exactly at
   `start` when that run ends inside the interval.
   */
  lemma DelEffect(s: seq<BlockInterval>, start: u32, size: u32)
    requires Canonical(s) && 0 < size && start + size <= UINT_MAX
    requires MustSplit(s, start, size) ==> |s| != MAX_RUNS
    ensures !StopsEarly(s, start, size) ==> IsDifference(DelRuns(s, start, size), s, start, start + size)
    ensures forall i :: StopsAt(s, i, start, size) ==> IsDifference(DelRuns(s, start, size), s, start, s[i].End())
  {
    if !StopsEarly(s, start, size) {
      DelFromDifference(s, 0, start, size);
    }
    forall i | StopsAt(s, i, start, size)
      ensures IsDifference(DelRuns(s, start, size), s, start, s[i].End())
    {
      assert s[i].Sound();
      ScanStopsAt(s, i, start, size);
      RemoveDifference(s, i);
    }
  }

  /** At capacity a split loses everything behind the interval. */
  lemma SplitAtCapacity(s: seq<BlockInterval>, i: nat, start: u32, size: u32)
    requires Canonical(s) && |s| == MAX_RUNS && 0 < size
    requires i < |s| && s[i].start < start < s[i].End() && Add32(start, size) < s[i].End()
    ensures IsDifference(DelRuns(s, start, size), s, start, s[i].End())
  {
    ScanStopsAt(s, i, start, size);
    TrimTail(s, i, start);
  }

  /** The caller-side condition under which `DelInterval` removes exactly what it is given. */
  ghost predicate DelAccepts(s: seq<BlockInterval>, start: u32, size: u32) {
    if size == 0 then
      true
    else if start + size <= UINT_MAX then
      && (forall i :: StopsAt(s, i, start, size) ==> i + 1 == |s| || start + size <= s[i + 1].start)
      && (MustSplit(s, start, size) ==> |s| != MAX_RUNS)
    else
      || (forall i :: 0 <= i < |s| ==> s[i].End() <= start)
      || (|s| == MAX_RUNS && s[|s| - 1].start < start < s[|s| - 1].End())
  }

  lemma SameDifference(r: seq<BlockInterval>, s: seq<BlockInterval>, lo: int, mid: int, hi: int, i: nat)
    requires Canonical(s) && i < |s| && s[i].End() == mid && lo <= mid <= hi
    requires IsDifference(r, s, lo, mid)
    ensures IsDifference(r, s, lo, hi) <==> (i + 1 == |s| || hi <= s[i + 1].start)
  {
    if i + 1 < |s| && s[i + 1].start < hi {
      assert s[i + 1].Sound() && s[i + 1].Contains(s[i + 1].start);
      assert Has(s, s[i + 1].start) && Has(r, s[i + 1].start);
    } else {
      forall x | Has(s, x)
        ensures x < mid || hi <= x
      {
        var k :| 0 <= k < |s| && s[k].Contains(x);
        assert s[k].Sound() && s[i].Sound();
        if i + 1 < k {
          assert s[i + 1].End() < s[k].start && s[i + 1].Sound();
        }
      }
    }
  }

  lemma DelIffWithoutWrap(s: seq<BlockInterval>, start: u32, size: u32)
    requires Canonical(s) && 0 < size && start + size <= UINT_MAX
    ensures IsDifference(DelRuns(s, start, size), s, start, start + size) <==> DelAccepts(s, start, size)
  {
    if i :| SplitsAt(s, i, start, size) && |s| == MAX_RUNS {
      SplitAtCapacity(s, i, start, size);
      assert s[i].Contains(start + size);
      assert Has(s, start + size) && !Has(DelRuns(s, start, size), start + size);
    } else {
      DelEffect(s, start, size);
      if i :| StopsAt(s, i, start, size) {
        assert s[i].Sound();
        SameDifference(DelRuns(s, start, size), s, start, s[i].End(), start + size, i);
        RunAtStart(s, i, start, size);
        UniqueStop(s, i, start, size);
      }
    }
  }

  lemma UniqueStop(s: seq<BlockInterval>, i: nat, start: u32, size: u32)
    requires Canonical(s) && StopsAt(s, i, start, size)
    ensures forall k :: StopsAt(s, k, start, size) ==> k == i
  {
    forall k | StopsAt(s, k, start, size)
      ensures k == i
    {
      assert s[k].Sound() && s[i].Sound();
    }
  }

  // ---------------------------------------------------------------- intervals whose end wraps

  /** With no block at `start` a wrapping deletion does nothing. */
  lemma {:induction false} DelFromWrapsOutside(s: seq<BlockInterval>, i: nat, start: u32, size: u32)
    requires Canonical(s) && i <= |s| && UINT_MAX < start + size && !Has(s, start)
    ensures DelFrom(s, i, start, size) == s
    decreases |s| - i
  {
    if i < |s| {
      assert s[i].Sound();
      if s[i].start <= start {
        assert !s[i].Contains(start);
        DelFromWrapsOutside(s, i + 1, start, size);
      }
    }
  }

  /** With a block at `start` it leaves that block in, breaks the form, or loses the split. */
  lemma WrapInside(s: seq<BlockInterval>, i: nat, start: u32, size: u32)
    requires Canonical(s) && i < |s| && s[i].Contains(start) && UINT_MAX < start + size
    ensures s[i].start == start ==> Has(DelRuns(s, start, size), start)
    ensures s[i].start < start && |s| != MAX_RUNS ==> !Canonical(DelRuns(s, start, size))
    ensures s[i].start < start && |s| == MAX_RUNS ==> IsDifference(DelRuns(s, start, size), s, start, s[i].End())
  {
    var end := Add32(start, size);
    assert s[i].Sound();
    ScanStopsAt(s, i, start, size);
    var r := DelRuns(s, start, size);
    if s[i].start == start {
      assert r[i].Contains(start);
    } else if |s| != MAX_RUNS {
      assert r[i] == BlockInterval(s[i].start, start - s[i].start);
      assert r[i].End() == start && r[i + 1].start == end;
    } else {
      SplitAtCapacity(s, i, start, size);
    }
  }

  /**
   Exactly what a wrapping deletion leaves: nothing changes without a block at `start`; a run that
   begins there is extended downwards to the wrapped end; another run is cut off at `start`, and a
   run from the wrapped end to its old end is put behind it unless the array is full.
   */
  lemma WrapEffect(s: seq<BlockInterval>, start: u32, size: u32)
    requires Canonical(s) && UINT_MAX < start + size
    ensures !Has(s, start) ==> DelRuns(s, start, size) == s
    ensures forall i :: 0 <= i < |s| && s[i].start <= start < s[i].start + s[i].size ==>
              var low, end := start + size - 0x1_0000_0000, s[i].start + s[i].size;
              var lowered, cut := BlockInterval(low, end - low), BlockInterval(s[i].start, start - s[i].start);
              DelRuns(s, start, size) ==
                if s[i].start == start then s[i := lowered]
                else if |s| == MAX_RUNS then s[i := cut]
                else s[..i] + [cut, lowered] + s[i + 1..]
  {
    if !Has(s, start) {
      DelFromWrapsOutside(s, 0, start, size);
    }
    forall i | 0 <= i < |s| && s[i].start <= start < s[i].start + s[i].size
      ensures var low, end := start + size - 0x1_0000_0000, s[i].start + s[i].size;
              var lowered, cut := BlockInterval(low, end - low), BlockInterval(s[i].start, start - s[i].start);
              DelRuns(s, start, size) ==
                if s[i].start == start then s[i := lowered]
                else if |s| == MAX_RUNS then s[i := cut]
                else s[..i] + [cut, lowered] + s[i + 1..]
    {
      assert s[i].Sound();
      ScanStopsAt(s, i, start, size);
    }
  }

  lemma DelIffWithWrap(s: seq<BlockInterval>, start: u32, size: u32)
    requires Canonical(s) && |s| <= MAX_RUNS && UINT_MAX < start + size
    ensures IsDifference(DelRuns(s, start, size), s, start, start + size) <==> DelAccepts(s, start, size)
  {
    var r := DelRuns(s, start, size);
    if i :| 0 <= i < |s| && s[i].Contains(start) {
      assert s[i].Sound();
      WrapInside(s, i, start, size);
      assert Has(s, start);
      if s[i].start < start && |s| == MAX_RUNS {
        SameDifference(r, s, start, s[i].End(), start + size, i);
        if i + 1 < |s| {
          assert s[i].End() < s[|s| - 1].start;
          assert s[i + 1].Sound();
        }
      }
    } else {
      DelFromWrapsOutside(s, 0, start, size);
      assert r == s;
      if k :| 0 <= k < |s| && start < s[k].End() {
        assert s[k].Sound() && s[k].Contains(s[k].End() - 1);
        assert Has(s, s[k].End() - 1);
        assert |s| == MAX_RUNS ==> !s[|s| - 1].Contains(start);
      } else {
        forall x | Has(s, x)
          ensures x < start
        {
          var k :| 0 <= k < |s| && s[k].Contains(x);
          assert s[k].Sound();
        }
      }
    }
  }

  /** `DelInterval` is set difference on the canonical form exactly when it accepts the interval. */
  lemma DelIsDifferenceIff(s: seq<BlockInterval>, start: u32, size: u32)
    requires Canonical(s) && |s| <= MAX_RUNS
    ensures IsDifference(DelRuns(s, start, size), s, start, start + size) <==> DelAccepts(s, start, size)
  {
    if 0 < size {
      if start + size <= UINT_MAX {
        DelIffWithoutWrap(s, start, size);
      } else {
        DelIffWithWrap(s, start, size);
      }
    }
  }

  /** The smallest failing input: deleting [0, 20) from {[0,5), [10,15)} keeps [10, 15). */
  lemma DelStopsEarlyExample()
    ensures var s := [BlockInterval(0, 5), BlockInterval(10, 5)];
            Canonical(s) && DelRuns(s, 0, 20) == [BlockInterval(10, 5)]
  {
    var s := [BlockInterval(0, 5), BlockInterval(10, 5)];
    assert DelFrom(s, 0, 0, 20) == Remove(s, 0);
  }
}
