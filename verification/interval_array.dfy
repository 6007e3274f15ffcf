/** `IntervalArray`: a growable array of runs, changed in place. */
module IntervalArrays {
  import opened Words
  import opened Runs
  import opened RunInsertion
  import opened RunDeletion
  import opened RunAlgebra
  import opened RunIntersection
  import opened RunSorting

  class IntervalArray {
    var runs: array<BlockInterval>
    var totalSize: nat
    var validSize: nat

    ghost predicate Valid()
      reads this
    {
      runs.Length == totalSize && validSize <= totalSize <= MAX_RUNS
    }

    ghost function Contents(): seq<BlockInterval>
      requires Valid()
      reads this, runs
    {
      runs[..validSize]
    }

    constructor ()
      ensures Valid() && Contents() == [] && fresh(runs)
    {
      runs := new BlockInterval[0];
      totalSize := 0;
      validSize := 0;
    }

    /** The copy constructor: a deep copy with the other's capacity. */
    constructor Copy(another: IntervalArray)
      requires another.Valid()
      ensures Valid() && fresh(runs)
      ensures Contents() == another.Contents() && totalSize == another.totalSize
    {
      var n := another.validSize;
      var a := new BlockInterval[another.totalSize];
      forall k | 0 <= k < n {
        a[k] := another.runs[k];
      }
      runs := a;
      totalSize := another.totalSize;
      validSize := n;
    }

    /** The assignment operator: a deep copy trimmed to the other's valid runs. */
    method Assign(another: IntervalArray)
      requires Valid() && another.Valid()
      modifies this
      ensures Valid() && Contents() == old(another.Contents())
      ensures another == this ==> runs == old(runs) && totalSize == old(totalSize)
      ensures another != this ==> fresh(runs) && totalSize == validSize
    {
      if another == this {
        return;
      }
      var a := new BlockInterval[another.validSize];
      forall k | 0 <= k < another.validSize {
        a[k] := another.runs[k];
      }
      totalSize := another.validSize;
      validSize := another.validSize;
      runs := a;
    }

    /** Comparing the valid runs byte by byte decides equality of the denoted sets. */
    method Equals(another: IntervalArray) returns (same: bool)
      requires Valid() && another.Valid()
      ensures same <==> Contents() == another.Contents()
      ensures Canonical(Contents()) && Canonical(another.Contents()) ==>
                (same <==> forall x :: Has(Contents(), x) <==> Has(another.Contents(), x))
    {
      same := validSize == another.validSize && runs[..validSize] == another.runs[..validSize];
      if Canonical(Contents()) && Canonical(another.Contents()) &&
         forall x :: Has(Contents(), x) <==> Has(another.Contents(), x) {
        CanonicalUnique(Contents(), another.Contents());
      }
    }

    // -------------------------------------------------------------- the two shifts

    method SafeInsert(i: nat, start: u32, size: u32)
      requires Valid() && i <= validSize
      modifies this, runs
      ensures Valid() && (runs == old(runs) || fresh(runs))
      ensures Contents() == Insert(old(Contents()), i, BlockInterval(start, size))
    {
      if validSize == MAX_RUNS {
        return;
      }
      ghost var was := Contents();
      var temp := runs;
      if totalSize == validSize {
        Enlarge(i);
      }
      OpenGap(temp, i, was);
      runs[i] := BlockInterval(start, size);
      validSize := validSize + 1;
      assert runs[..validSize] == was[..i] + [BlockInterval(start, size)] + was[i..];
    }

    /** A larger array with the first i runs in it. */
    method Enlarge(i: nat)
      requires Valid() && i <= validSize < MAX_RUNS
      modifies this`runs, this`totalSize
      ensures fresh(runs) && runs.Length == totalSize == validSize + 1
      ensures forall k :: 0 <= k < i ==> runs[k] == old(Contents())[k]
    {
      var a := new BlockInterval[validSize + 1];
      forall k | 0 <= k < i {
        a[k] := runs[k];
      }
      runs := a;
      totalSize := validSize + 1;
    }

    /** Moves the runs from i on by one, from the old array into the current one. */
    method OpenGap(temp: array<BlockInterval>, i: nat, ghost was: seq<BlockInterval>)
      requires i <= validSize == |was| < runs.Length == totalSize && validSize <= temp.Length
      requires forall k :: 0 <= k < validSize ==> temp[k] == was[k]
      requires forall k :: 0 <= k < i ==> runs[k] == was[k]
      modifies runs
      ensures forall k :: 0 <= k < i ==> runs[k] == was[k]
      ensures forall k :: i < k <= validSize ==> runs[k] == was[k - 1]
    {
      forall k | i <= k < validSize {
        runs[k + 1] := temp[k];
      }
      assert forall k :: i <= k < validSize ==> runs[k + 1] == was[k];
    }

    method SafeDelete(i: nat)
      requires Valid() && i < validSize
      modifies this`validSize, runs
      ensures Valid()
      ensures Contents() == Remove(old(Contents()), i)
    {
      forall k | i <= k < validSize - 1 {
        runs[k] := runs[k + 1];
      }
      validSize := validSize - 1;
    }

    method Clear()
      requires Valid()
      modifies this`validSize
      ensures Valid() && Contents() == []
    {
      validSize := 0;
    }

    // -------------------------------------------------------------- insertion and deletion

    method AddInterval(start: u32, size: u32)
      requires Valid()
      modifies this, runs
      ensures Valid() && (runs == old(runs) || fresh(runs))
      ensures Contents() == AddRuns(old(Contents()), start, size)
      decreases validSize
    {
      if start == UINT_MAX || size == 0 {
        return;
      }
      ghost var was := Contents();
      var end := Add32(start, size);
      var i := 0;
      while i < validSize
        invariant Valid() && runs == old(runs) && validSize == old(validSize) && i <= validSize
        invariant Contents() == was
        invariant AddRuns(was, start, size) == AddFrom(was, i, start, size)
      {
        var run := runs[i];
        if run.start > start {
          if run.start > end {
            break;
          } else if run.End() >= end {
            runs[i] := BlockInterval(start, Add32(run.size, run.start - start));
            return;
          } else {
            SafeDelete(i);
            AddInterval(start, size);
            return;
          }
        } else if run.End() >= start {
          if run.End() >= end {
            return;
          }
          if i == validSize - 1 || runs[i + 1].start > end {
            runs[i] := BlockInterval(run.start, Sub32(end, run.start));
            return;
          }
          SafeDelete(i);
          AddInterval(run.start, Add32(size, start - run.start));
          return;
        }
        i := i + 1;
      }
      SafeInsert(i, start, size);
    }

    method DelInterval(start: u32, size: u32)
      requires Valid()
      modifies this, runs
      ensures Valid() && (runs == old(runs) || fresh(runs))
      ensures Contents() == DelRuns(old(Contents()), start, size)
      decreases Weight(Contents())
    {
      if size == 0 {
        return;
      }
      ghost var was := Contents();
      var end := Add32(start, size);
      var i := 0;
      while i < validSize
        invariant Valid() && runs == old(runs) && validSize == old(validSize) && i <= validSize
        invariant Contents() == was
        invariant DelRuns(was, start, size) == DelFrom(was, i, start, size)
      {
        var run := runs[i];
        if run.start > start {
          if run.start > end {
            return;
          } else if run.End() > end {
            runs[i] := BlockInterval(end, Sub32(run.End(), end));
            return;
          } else {
            SafeDelete(i);
            WeightRemove(was, i);
            DelInterval(start, size);
            return;
          }
        } else if run.End() > start {
          if run.start != start {
            runs[i] := BlockInterval(run.start, start - run.start);
            WeightUpdate(was, i, runs[i]);
            assert Contents() == was[i := runs[i]];
          }
          if run.End() <= end {
            if run.start != start {
              DelInterval(start, size);
              return;
            }
            SafeDelete(i);
            return;
          }
          if run.start == start {
            runs[i] := BlockInterval(end, Sub32(run.size, Sub32(end, run.start)));
            return;
          }
          SafeInsert(i + 1, end, Sub32(run.End(), end));
          return;
        }
        i := i + 1;
      }
    }

    method DeleteArray(another: IntervalArray)
      requires Valid() && another.Valid() && another != this && another.runs != runs
      modifies this, runs
      ensures Valid() && (runs == old(runs) || fresh(runs))
      ensures Contents() == DelAll(old(Contents()), another.Contents())
    {
      ghost var ops := another.Contents();
      for i := 0 to another.validSize
        invariant Valid() && (runs == old(runs) || fresh(runs))
        invariant Contents() == DelAll(old(Contents()), ops[..i])
      {
        DelInterval(another.runs[i].start, another.runs[i].size);
        assert ops[..i + 1][..i] == ops[..i];
      }
      assert ops[..another.validSize] == ops;
    }

    method AndOperator(another: IntervalArray, result: IntervalArray)
      requires Valid() && another.Valid() && result.Valid()
      requires result != this && result != another && result.runs != runs && result.runs != another.runs
      modifies result, result.runs
      ensures result.Valid() && (result.runs == old(result.runs) || fresh(result.runs))
      ensures result.Contents() == AndRuns(Contents(), another.Contents())
    {
      result.Clear();
      ghost var a, b := Contents(), another.Contents();
      for i := 0 to another.validSize
        invariant result.Valid() && (result.runs == old(result.runs) || fresh(result.runs))
        invariant Contents() == a && another.Contents() == b
        invariant result.Contents() == AddAll([], Pieces(a, b, i, 0))
      {
        for j := 0 to validSize
          invariant result.Valid() && (result.runs == old(result.runs) || fresh(result.runs))
          invariant Contents() == a && another.Contents() == b
          invariant result.Contents() == AddAll([], Pieces(a, b, i, j))
        {
          var temp := AndOp(runs[j], another.runs[i]);
          assert runs[j] == a[j] && another.runs[i] == b[i];
          if temp.size > 0 {
            result.AddInterval(temp.start, temp.size);
            assert (Pieces(a, b, i, j) + [temp])[..|Pieces(a, b, i, j)|] == Pieces(a, b, i, j);
          }
        }
      }
    }

    // -------------------------------------------------------------- queries

    /** Membership; a hit is right even on a list that is not canonical. */
    method FindBlock(block: u32) returns (found: bool)
      requires Valid()
      ensures found <==> Finds(Contents(), block)
      ensures found ==> Has(Contents(), block)
      ensures Canonical(Contents()) ==> (found <==> Has(Contents(), block))
    {
      FindsFromIsMembership(Contents(), 0, block);
      for i := 0 to validSize
        invariant Finds(Contents(), block) <==> FindsFrom(Contents(), i, block)
      {
        assert Contents()[i] == runs[i];
        if runs[i].start > block {
          return false;
        } else if runs[i].End() > block {
          return true;
        }
      }
      return false;
    }

    /** The length of the longest covered stretch that begins at the block. */
    method GetContinousCount(block: u32) returns (count: u32)
      requires Valid()
      ensures Canonical(Contents()) ==> forall x :: block <= x < block + count ==> Has(Contents(), x)
      ensures Canonical(Contents()) ==> !Has(Contents(), block + count)
    {
      for i := 0 to validSize
        invariant Canonical(Contents()) ==> forall k :: 0 <= k < i ==> Contents()[k].End() <= block
      {
        assert Contents()[i] == runs[i];
        if Canonical(Contents()) {
          assert Contents()[i].Sound();
        }
        if runs[i].start > block {
          if Canonical(Contents()) {
            StretchEnd(Contents(), i, block);
          }
          return 0;
        } else if runs[i].End() > block {
          if Canonical(Contents()) {
            StretchEnd(Contents(), i + 1, runs[i].End());
            assert forall x :: block <= x < runs[i].End() ==> Contents()[i].Contains(x);
          }
          return runs[i].End() - block;
        }
      }
      if Canonical(Contents()) {
        StretchEnd(Contents(), validSize, block);
      }
      return 0;
    }

    /** The number of blocks of the set in the range, clamped at the largest id; the sum never wraps. */
    method GetCountInInterval(block: u32, len: u32) returns (total: u32)
      requires Valid()
      ensures Canonical(Contents()) ==>
                total == |BlocksIn(Contents(), block, block + Min(len, UINT_MAX - block))|
    {
      total := 0;
      var range := BlockInterval(block, Min(len, UINT_MAX - block));
      ghost var s, lo, hi := Contents(), block, block + range.size;
      assert BlocksIn(s[..0], lo, hi) == {};
      for i := 0 to validSize
        invariant Canonical(s) ==> total == |BlocksIn(s[..i], lo, hi)|
      {
        var result := AndOp(runs[i], range);
        if Canonical(s) {
          CountStep(s, i, range);
          CountBound(s[..i + 1], lo, hi);
        }
        total := Add32(total, result.size);
      }
      assert s[..validSize] == s;
    }

    /**
     Copies out as many runs as fit, the smallest ones if not all fit, in start order. The array
     is sorted by size and back by start on the way; on the canonical form that restores it.
     */
    method CopyIntervalArray(target: array?<BlockInterval>, size: u8) returns (copied: u8)
      requires Valid()
      requires target != null ==> target != runs && Min(size, validSize) <= target.Length
      modifies runs, target
      ensures Valid() && runs == old(runs) && multiset(Contents()) == multiset(old(Contents()))
      ensures Canonical(old(Contents())) ==> Contents() == old(Contents())
      ensures target == null || size == 0 ==> copied == size && (target != null ==> target[..] == old(target[..]))
      ensures target != null && size != 0 ==>
                && copied == Min(size, validSize)
                && target[copied..] == old(target[copied..])
                && ChosenRuns(old(Contents()), target[..copied])
    {
      copied := size;
      if target == null || size == 0 {
        return;
      }
      ghost var was := Contents();
      if size >= validSize {
        copied := validSize;
        forall k | 0 <= k < copied {
          target[k] := runs[k];
        }
        assert target[..copied] == was;
      } else {
        CopySmallest(target, copied);
      }
    }

    /** The branch of `CopyIntervalArray` that has to choose. */
    method CopySmallest(target: array<BlockInterval>, count: nat)
      requires Valid() && target != runs && count <= target.Length && count < validSize
      modifies runs, target
      ensures Valid() && multiset(Contents()) == multiset(old(Contents()))
      ensures Canonical(old(Contents())) ==> Contents() == old(Contents())
      ensures target[count..] == old(target[count..])
      ensures ChosenRuns(old(Contents()), target[..count])
    {
      ghost var was := Contents();
      Sort(runs, validSize, BySize);
      ghost var bySize := Contents();
      CopyFront(target, count);
      Sort(runs, validSize, ByStart);
      Sort(target, count, ByStart);
      CopiedRuns(was, bySize, target[..count], count);
      if Canonical(was) {
        StartOrder(Contents());
        SortedPermutation(was, Contents());
      }
    }

    method CopyFront(target: array<BlockInterval>, count: nat)
      requires Valid() && target != runs && count <= target.Length && count <= validSize
      modifies target
      ensures Valid() && runs[..] == old(runs[..])
      ensures target[..count] == Contents()[..count] && target[count..] == old(target[count..])
    {
      forall k | 0 <= k < count {
        target[k] := runs[k];
      }
    }

    /** The self-check decides the canonical form. */
    method Verify() returns (ok: bool)
      requires Valid()
      ensures ok <==> Canonical(Contents())
    {
      ghost var s := Contents();
      for i := 0 to validSize
        invariant forall k :: 0 <= k < i ==> s[k].Sound()
        invariant forall k :: 0 <= k < i && k < validSize - 1 ==> s[k].End() < s[k + 1].start
      {
        assert s[i] == runs[i];
        if runs[i].size == 0 || UINT_MAX - runs[i].start < runs[i].size {
          assert !s[i].Sound();
          return false;
        }
        if i == validSize - 1 {
          break;
        }
        assert s[i + 1] == runs[i + 1];
        if runs[i].End() >= runs[i + 1].start {
          return false;
        }
      }
      NeighboursSuffice(s);
      return true;
    }
  }

  /** When the runs before i end at or before x and the others start beyond it, x is not covered. */
  lemma StretchEnd(s: seq<BlockInterval>, i: nat, x: int)
    requires Canonical(s) && i <= |s|
    requires 0 < i ==> s[i - 1].End() <= x
    requires i < |s| ==> x < s[i].start
    ensures !Has(s, x)
  {
    forall k | 0 <= k < |s|
      ensures !s[k].Contains(x)
    {
      assert s[k].Sound();
      EndsBefore(s, i, k, x);
      if i < k {
        assert s[i].Sound();
      }
    }
  }

  /** The copy holds runs of the array, none larger than one left out, and keeps the canonical form. */
  ghost predicate ChosenRuns(was: seq<BlockInterval>, copy: seq<BlockInterval>) {
    && multiset(copy) <= multiset(was)
    && (forall b, c :: b in copy && c in multiset(was) - multiset(copy) ==> b.size <= c.size)
    && (Canonical(was) ==> Canonical(copy))
  }

  lemma StartOrder(s: seq<BlockInterval>)
    requires SortedBy(s, ByStart)
    ensures SortedByStart(s)
  {
    forall i, j | 0 <= i < j < |s|
      ensures s[i].start <= s[j].start
    {
      assert Key(s[i], ByStart) <= Key(s[j], ByStart);
    }
  }

  /** What sorting by size, cutting, and sorting the cut by start leaves in the copy. */
  lemma CopiedRuns(was: seq<BlockInterval>, bySize: seq<BlockInterval>, copy: seq<BlockInterval>, k: nat)
    requires k <= |bySize| && multiset(bySize) == multiset(was) && SortedBy(bySize, BySize)
    requires multiset(copy) == multiset(bySize[..k]) && SortedBy(copy, ByStart)
    ensures ChosenRuns(was, copy)
  {
    assert bySize == bySize[..k] + bySize[k..];
    forall b, c | b in copy && c in multiset(was) - multiset(copy)
      ensures b.size <= c.size
    {
      assert b in multiset(copy);
      assert b in multiset(bySize[..k]);
      SmallestFirst(bySize, k, b, c);
    }
    if Canonical(was) {
      StartOrder(copy);
      CanonicalSelection(was, copy);
    }
  }
}
