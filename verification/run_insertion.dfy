/** `AddInterval`: inserting an interval into a run list, merging the runs it touches. */
module RunInsertion {
  import opened Words
  import opened Runs

  function AddRuns(s: seq<BlockInterval>, start: u32, size: u32): seq<BlockInterval>
    decreases |s|, |s| + 1
  {
    if start == UINT_MAX || size == 0 then s else AddFrom(s, 0, start, size)
  }

  /** The scan of `AddInterval` from run i on; a merge deletes a run and starts over. */
  function AddFrom(s: seq<BlockInterval>, i: nat, start: u32, size: u32): seq<BlockInterval>
    requires i <= |s|
    decreases |s|, |s| - i
  {
    var end := Add32(start, size);
    if i == |s| then
      Insert(s, i, BlockInterval(start, size))
    else if s[i].start > start then
      if s[i].start > end then
        Insert(s, i, BlockInterval(start, size))
      else if s[i].End() >= end then
        s[i := BlockInterval(start, Add32(s[i].size, s[i].start - start))]
      else
        AddRuns(Remove(s, i), start, size)
    else if s[i].End() >= start then
      if s[i].End() >= end then
        s
      else if i == |s| - 1 || s[i + 1].start > end then
        s[i := BlockInterval(s[i].start, Sub32(end, s[i].start))]
      else
        AddRuns(Remove(s, i), s[i].start, Add32(size, start - s[i].start))
    else
      AddFrom(s, i + 1, start, size)
  }

  /** Some run overlaps or is adjacent to [lo, hi). */
  ghost predicate Touches(s: seq<BlockInterval>, lo: int, hi: int) {
    exists i :: 0 <= i < |s| && s[i].start <= hi && lo <= s[i].End()
  }

  lemma InsertUnion(s: seq<BlockInterval>, i: nat, b: BlockInterval)
    requires i <= |s| && |s| != MAX_RUNS && Canonical(s) && b.Sound()
    requires 0 < i ==> s[i - 1].End() < b.start
    requires i < |s| ==> b.End() < s[i].start
    ensures IsUnion(Insert(s, i, b), s, b.start, b.End())
  {
    HasInsert(s, i, b);
    CanonicalInsert(s, i, b);
  }

  /** A run may grow as long as it stays clear of its neighbours. */
  lemma GrowUnion(s: seq<BlockInterval>, i: nat, b: BlockInterval, lo: int, hi: int)
    requires i < |s| && Canonical(s) && b.Sound()
    requires 0 < i ==> s[i - 1].End() < b.start
    requires i + 1 < |s| ==> b.End() < s[i + 1].start
    requires b.start == Min(lo, s[i].start) && b.End() == Max(hi, s[i].End())
    requires lo <= hi && lo <= s[i].End() && s[i].start <= hi
    ensures IsUnion(s[i := b], s, lo, hi)
  {
    CanonicalUpdate(s, i, b);
    HasUpdate(s, i, b);
    assert s[i].Sound();
    assert forall x :: s[i].Contains(x) ==> Has(s, x);
    forall x
      ensures Has(s[i := b], x) <==> Has(s, x) || lo <= x < hi
    {
      assert b.Contains(x) <==> s[i].Contains(x) || lo <= x < hi;
    }
  }

  /** What a run covers may be deleted first if it is covered again by what is added. */
  lemma SwallowUnion(r: seq<BlockInterval>, s: seq<BlockInterval>, i: nat, lo: int, hi: int, lo': int)
    requires i < |s|
    requires IsUnion(r, Remove(s, i), lo', hi)
    requires lo' == Min(lo, s[i].start) && lo <= s[i].End() <= hi && s[i].start + s[i].size <= UINT_MAX
    ensures IsUnion(r, s, lo, hi)
  {
    HasRemove(s, i);
  }

  /** A full array whose runs all stay clear of [lo, hi) around position i. */
  lemma ClearOfRuns(s: seq<BlockInterval>, i: nat, lo: int, hi: int)
    requires Canonical(s) && i <= |s|
    requires 0 < i ==> s[i - 1].End() < lo
    requires i < |s| ==> hi < s[i].start
    ensures !Touches(s, lo, hi)
  {
    forall k | 0 <= k < |s|
      ensures !(s[k].start <= hi && lo <= s[k].End())
    {
      if k < i - 1 {
        assert s[k].End() < s[i - 1].start && s[i - 1].Sound();
      }
      if i < k {
        assert s[i].End() < s[k].start && s[i].Sound();
      }
    }
  }

  /** The branches that leave run i in place compute the hull of the run and the new interval. */
  lemma GrowResult(s: seq<BlockInterval>, i: nat, start: u32, size: u32, b: BlockInterval)
    requires i < |s| && s[i].Sound() && 0 < size && start + size <= UINT_MAX
    requires b.start == Min(start, s[i].start) && b.start + b.size == Max(start + size, s[i].End())
    requires s[i].start <= start + size && start <= s[i].End()
    requires start + size <= s[i].End() || (s[i].start <= start && (i + 1 < |s| ==> start + size < s[i + 1].start))
    ensures AddFrom(s, i, start, size) == s[i := b]
  {
    if s[i].start <= start && start + size <= s[i].End() {
      assert b == s[i];
      assert s[i := s[i]] == s;
    } else if s[i].start <= start {
      assert b == BlockInterval(s[i].start, Sub32(start + size, s[i].start));
    }
  }

  lemma GrowStep(s: seq<BlockInterval>, i: nat, start: u32, size: u32)
    requires Canonical(s) && i < |s| && 0 < size && start + size <= UINT_MAX
    requires 0 < i ==> s[i - 1].End() < start
    requires s[i].start <= start + size && start <= s[i].End()
    requires start + size <= s[i].End() || (s[i].start <= start && (i + 1 < |s| ==> start + size < s[i + 1].start))
    ensures IsUnion(AddFrom(s, i, start, size), s, start, start + size)
    ensures |AddFrom(s, i, start, size)| == |s|
  {
    var lo, hi := Min(start, s[i].start), Max(start + size, s[i].End());
    var b := BlockInterval(lo, hi - lo);
    assert s[i].Sound();
    GrowResult(s, i, start, size, b);
    GrowUnion(s, i, b, start, start + size);
  }

  lemma {:induction false} AddFromUnion(s: seq<BlockInterval>, i: nat, start: u32, size: u32)
    requires Canonical(s) && i <= |s| && 0 < size && start + size <= UINT_MAX
    requires 0 < i ==> s[i - 1].End() < start
    requires |s| < MAX_RUNS || (|s| == MAX_RUNS && Touches(s, start, start + size))
    ensures IsUnion(AddFrom(s, i, start, size), s, start, start + size)
    ensures |AddFrom(s, i, start, size)| <= |s| + 1
    decreases |s|, |s| - i
  {
    var end := start + size;
    if i == |s| || s[i].start > end {
      if |s| == MAX_RUNS {
        ClearOfRuns(s, i, start, end);
      }
      InsertUnion(s, i, BlockInterval(start, size));
    } else if s[i].End() < start {
      AddFromUnion(s, i + 1, start, size);
    } else if end <= s[i].End() || (s[i].start <= start && (i + 1 < |s| ==> end < s[i + 1].start)) {
      GrowStep(s, i, start, size);
    } else {
      MergeStep(s, i, start, size);
    }
  }

  lemma MergeResult(s: seq<BlockInterval>, i: nat, start: u32, size: u32)
    requires i < |s| && s[i].Sound() && 0 < size && start + size <= UINT_MAX
    requires start <= s[i].End() < start + size && s[i].start <= start + size
    requires s[i].start <= start ==> i + 1 < |s| && s[i + 1].start <= start + size
    ensures var lo := Min(start, s[i].start);
            AddFrom(s, i, start, size) == AddFrom(Remove(s, i), 0, lo, start + size - lo)
  {
  }

  /** The two branches that delete run i and insert what it covered again. */
  lemma {:induction false} MergeStep(s: seq<BlockInterval>, i: nat, start: u32, size: u32)
    requires Canonical(s) && i < |s| && 0 < size && start + size <= UINT_MAX
    requires 0 < i ==> s[i - 1].End() < start
    requires start <= s[i].End() < start + size && s[i].start <= start + size
    requires s[i].start <= start ==> i + 1 < |s| && s[i + 1].start <= start + size
    requires |s| <= MAX_RUNS
    ensures IsUnion(AddFrom(s, i, start, size), s, start, start + size)
    ensures |AddFrom(s, i, start, size)| <= |s|
    decreases |s|, 0
  {
    var end := start + size;
    var lo := Min(start, s[i].start);
    var t := Remove(s, i);
    assert s[i].Sound();
    MergeResult(s, i, start, size);
    CanonicalRemove(s, i);
    AddFromUnion(t, 0, lo, end - lo);
    SwallowUnion(AddFrom(t, 0, lo, end - lo), s, i, start, end, lo);
  }

  // ---------------------------------------------------------------- when it is a union

  /** The caller-side condition under which `AddInterval` inserts exactly what it is given. */
  ghost predicate AddAccepts(s: seq<BlockInterval>, start: u32, size: u32) {
    size == 0 || (start + size <= UINT_MAX && (|s| < MAX_RUNS || Touches(s, start, start + size)))
  }

  /** An interval whose end wraps is ignored or stored as it is, never merged. */
  lemma {:induction false} AddFromWraps(s: seq<BlockInterval>, i: nat, start: u32, size: u32)
    requires Canonical(s) && i <= |s| && UINT_MAX < start + size
    ensures var r := AddFrom(s, i, start, size); r == s || BlockInterval(start, size) in r
    decreases |s| - i
  {
    if i < |s| {
      assert s[i].Sound();
      if s[i].End() < start {
        AddFromWraps(s, i + 1, start, size);
      }
    }
  }

  /** A full array that no run touches drops the interval. */
  lemma {:induction false} AddFromFull(s: seq<BlockInterval>, i: nat, start: u32, size: u32)
    requires Canonical(s) && i <= |s| == MAX_RUNS && start + size <= UINT_MAX
    requires !Touches(s, start, start + size)
    ensures AddFrom(s, i, start, size) == s
    decreases |s| - i
  {
    if i < |s| && s[i].start <= start + size {
      assert s[i].Sound();
      AddFromFull(s, i + 1, start, size);
    }
  }

  /** At capacity an interval next to no run leaves the array as it was. */
  lemma AddRefusedAtCapacity(s: seq<BlockInterval>, start: u32, size: u32)
    requires Canonical(s) && |s| == MAX_RUNS && start + size <= UINT_MAX
    requires !Touches(s, start, start + size)
    ensures AddRuns(s, start, size) == s
  {
    AddFromFull(s, 0, start, size);
  }

  lemma NothingAtTop(s: seq<BlockInterval>)
    requires Canonical(s)
    ensures !Has(s, UINT_MAX)
  {
    forall i | 0 <= i < |s|
      ensures !s[i].Contains(UINT_MAX)
    {
      assert s[i].Sound();
    }
  }

  /** `AddInterval` is set union on the canonical form exactly when it accepts the interval. */
  lemma AddIsUnionIff(s: seq<BlockInterval>, start: u32, size: u32)
    requires Canonical(s) && |s| <= MAX_RUNS
    ensures IsUnion(AddRuns(s, start, size), s, start, start + size) <==> AddAccepts(s, start, size)
    ensures AddAccepts(s, start, size) ==> |AddRuns(s, start, size)| <= |s| + 1
  {
    var r := AddRuns(s, start, size);
    if size == 0 {
    } else if UINT_MAX < start + size {
      NothingAtTop(s);
      if start < UINT_MAX {
        AddFromWraps(s, 0, start, size);
        if BlockInterval(start, size) in r {
          assert !BlockInterval(start, size).Sound();
          assert !Canonical(r);
        }
      }
      assert r == s ==> !Has(r, UINT_MAX);
    } else if AddAccepts(s, start, size) {
      AddFromUnion(s, 0, start, size);
    } else {
      AddRefusedAtCapacity(s, start, size);
      forall i | 0 <= i < |s|
        ensures !s[i].Contains(start)
      {
        assert s[i].Sound();
      }
      assert !Has(s, start);
    }
  }

  /** The smallest failing input: on an empty array a wrapping interval breaks the canonical form. */
  lemma AddWrapBreaksForm()
    ensures AddRuns([], 10, UINT_MAX) == [BlockInterval(10, UINT_MAX)]
    ensures !Canonical([BlockInterval(10, UINT_MAX)])
  {
    assert !BlockInterval(10, UINT_MAX).Sound();
    assert [BlockInterval(10, UINT_MAX)][0] == BlockInterval(10, UINT_MAX);
  }

  // ---------------------------------------------------------------- sequences of insertions

  function AddAll(s: seq<BlockInterval>, ops: seq<BlockInterval>): seq<BlockInterval> {
    if ops == [] then s else AddRuns(AddAll(s, ops[..|ops| - 1]), ops[|ops| - 1].start, ops[|ops| - 1].size)
  }

  lemma {:induction false} AddAllConcat(s: seq<BlockInterval>, a: seq<BlockInterval>, b: seq<BlockInterval>)
    ensures AddAll(s, a + b) == AddAll(AddAll(s, a), b)
  {
    if b == [] {
      assert a + b == a;
    } else {
      AddAllConcat(s, a, b[..|b| - 1]);
      assert (a + b)[..|a + b| - 1] == a + b[..|b| - 1];
    }
  }

  /** Every interval is empty or ends at a 32-bit block id. */
  ghost predicate NoWrap(ops: seq<BlockInterval>) {
    forall i :: 0 <= i < |ops| ==> ops[i].size == 0 || ops[i].Sound()
  }

  /** The array takes every interval in full at its turn. */
  ghost predicate AllAccepted(s: seq<BlockInterval>, ops: seq<BlockInterval>) {
    forall k :: 0 <= k < |ops| ==> AddAccepts(AddAll(s, ops[..k]), ops[k].start, ops[k].size)
  }

  /** r is canonical and denotes what s and the intervals denote together. */
  ghost predicate IsUnionAll(r: seq<BlockInterval>, s: seq<BlockInterval>, ops: seq<BlockInterval>) {
    Canonical(r) && forall x :: Has(r, x) <==> Has(s, x) || Has(ops, x)
  }

  lemma AcceptedPrefix(s: seq<BlockInterval>, ops: seq<BlockInterval>, k: nat)
    requires AllAccepted(s, ops) && k <= |ops|
    ensures AllAccepted(s, ops[..k])
  {
    forall j | 0 <= j < k
      ensures AddAccepts(AddAll(s, ops[..k][..j]), ops[..k][j].start, ops[..k][j].size)
    {
      assert ops[..k][..j] == ops[..j];
    }
  }

  lemma HasInit(ops: seq<BlockInterval>, k: nat)
    requires k < |ops|
    ensures forall x :: Has(ops[..k + 1], x) <==> Has(ops[..k], x) || ops[k].Contains(x)
  {
    HasRemove(ops[..k + 1], k);
    assert Remove(ops[..k + 1], k) == ops[..k];
  }

  /** After any insertions that were accepted the array denotes what was there and what was inserted. */
  lemma {:induction false} AddAllUnion(s: seq<BlockInterval>, ops: seq<BlockInterval>)
    requires Canonical(s) && |s| <= MAX_RUNS && AllAccepted(s, ops)
    ensures IsUnionAll(AddAll(s, ops), s, ops)
    ensures |AddAll(s, ops)| <= MAX_RUNS && |AddAll(s, ops)| <= |s| + |ops|
  {
    if ops != [] {
      var n := |ops| - 1;
      var t := AddAll(s, ops[..n]);
      AcceptedPrefix(s, ops, n);
      AddAllUnion(s, ops[..n]);
      AddFromBounded(t, 0, ops[n].start, ops[n].size);
      AddIsUnionIff(t, ops[n].start, ops[n].size);
      HasInit(ops, n);
      assert ops[..n + 1] == ops;
    }
  }

  /** The array denotes the union at every moment of its history. */
  ghost predicate AlwaysUnion(s: seq<BlockInterval>, ops: seq<BlockInterval>) {
    forall k :: 0 <= k <= |ops| ==> IsUnionAll(AddAll(s, ops[..k]), s, ops[..k])
  }

  /** It does so exactly if every insertion is accepted. */
  lemma AddAllUnionIff(s: seq<BlockInterval>, ops: seq<BlockInterval>)
    requires Canonical(s) && |s| <= MAX_RUNS
    ensures AllAccepted(s, ops) <==> AlwaysUnion(s, ops)
  {
    if AllAccepted(s, ops) {
      forall k | 0 <= k <= |ops|
        ensures IsUnionAll(AddAll(s, ops[..k]), s, ops[..k])
      {
        AcceptedPrefix(s, ops, k);
        AddAllUnion(s, ops[..k]);
      }
    }
    if AlwaysUnion(s, ops) {
      forall k | 0 <= k < |ops|
        ensures AddAccepts(AddAll(s, ops[..k]), ops[k].start, ops[k].size)
      {
        UnionIsAccepted(s, ops, k);
      }
    }
  }

  lemma UnionIsAccepted(s: seq<BlockInterval>, ops: seq<BlockInterval>, k: nat)
    requires Canonical(s) && |s| <= MAX_RUNS && k < |ops|
    requires IsUnionAll(AddAll(s, ops[..k]), s, ops[..k]) && IsUnionAll(AddAll(s, ops[..k + 1]), s, ops[..k + 1])
    ensures AddAccepts(AddAll(s, ops[..k]), ops[k].start, ops[k].size)
  {
    AddAllBounded(s, ops[..k]);
    HasInit(ops, k);
    assert ops[..k + 1][..k] == ops[..k];
    AddIsUnionIff(AddAll(s, ops[..k]), ops[k].start, ops[k].size);
  }

  lemma {:induction false} AddAllBounded(s: seq<BlockInterval>, ops: seq<BlockInterval>)
    requires |s| <= MAX_RUNS
    ensures |AddAll(s, ops)| <= MAX_RUNS
  {
    if ops != [] {
      AddAllBounded(s, ops[..|ops| - 1]);
      AddFromBounded(AddAll(s, ops[..|ops| - 1]), 0, ops[|ops| - 1].start, ops[|ops| - 1].size);
    }
  }

  lemma OneMoreAccepted(s: seq<BlockInterval>, ops: seq<BlockInterval>, k: nat)
    requires k < |ops| && AllAccepted(s, ops[..k]) && AddAccepts(AddAll(s, ops[..k]), ops[k].start, ops[k].size)
    ensures AllAccepted(s, ops[..k + 1])
  {
    var init, next := ops[..k], ops[..k + 1];
    forall j | 0 <= j < |next|
      ensures AddAccepts(AddAll(s, next[..j]), next[j].start, next[j].size)
    {
      assert next[..j] == ops[..j];
      assert j < k ==> init[..j] == ops[..j] && init[j] == next[j];
    }
  }

  /** A history as short as the free run slots is accepted. */
  lemma {:induction false} ShortHistoryAccepted(s: seq<BlockInterval>, ops: seq<BlockInterval>)
    requires Canonical(s) && NoWrap(ops) && |s| + |ops| <= MAX_RUNS
    ensures AllAccepted(s, ops)
  {
    if ops != [] {
      var n := |ops| - 1;
      ShortHistoryAccepted(s, ops[..n]);
      AddAllUnion(s, ops[..n]);
      OneMoreAccepted(s, ops, n);
      assert ops[..n + 1] == ops;
    }
  }

  lemma {:induction false} AddFromBounded(s: seq<BlockInterval>, i: nat, start: u32, size: u32)
    requires i <= |s| <= MAX_RUNS
    ensures |AddFrom(s, i, start, size)| <= MAX_RUNS
    decreases |s|, |s| - i
  {
    var end := Add32(start, size);
    if i < |s| && s[i].End() < start && s[i].start <= start {
      AddFromBounded(s, i + 1, start, size);
    } else if i < |s| && (s[i].start > start || Add32(size, start - s[i].start) != 0) {
      if s[i].start > start {
        AddFromBounded(Remove(s, i), 0, start, size);
      } else {
        AddFromBounded(Remove(s, i), 0, s[i].start, Add32(size, start - s[i].start));
      }
    }
  }

  /** Even when the array overflows, it never holds a block that nobody inserted. */
  lemma {:induction false} AddAllSound(s: seq<BlockInterval>, ops: seq<BlockInterval>)
    requires Canonical(s) && |s| <= MAX_RUNS && NoWrap(ops)
    ensures Canonical(AddAll(s, ops)) && |AddAll(s, ops)| <= MAX_RUNS
    ensures forall x :: Has(AddAll(s, ops), x) ==> Has(s, x) || Has(ops, x)
  {
    if ops != [] {
      var n := |ops| - 1;
      var last, t := ops[n], AddAll(s, ops[..n]);
      AddAllSound(s, ops[..n]);
      AddFromBounded(t, 0, last.start, last.size);
      AddIsUnionIff(t, last.start, last.size);
      if !AddAccepts(t, last.start, last.size) {
        AddRefusedAtCapacity(t, last.start, last.size);
      }
      HasInit(ops, n);
      assert ops[..n + 1] == ops;
    }
  }

  /** Insertions that cover the same blocks, in whatever order and grouping, end in equal arrays. */
  lemma {:induction false} AddOrderIrrelevant(s: seq<BlockInterval>, ops: seq<BlockInterval>, ops': seq<BlockInterval>)
    requires Canonical(s) && |s| <= MAX_RUNS && AllAccepted(s, ops) && AllAccepted(s, ops')
    requires forall x :: Has(s, x) || Has(ops, x) <==> Has(s, x) || Has(ops', x)
    ensures AddAll(s, ops) == AddAll(s, ops')
  {
    AddAllUnion(s, ops);
    AddAllUnion(s, ops');
    CanonicalUnique(AddAll(s, ops), AddAll(s, ops'));
  }

  lemma {:induction false} PermutedInsertions(s: seq<BlockInterval>, ops: seq<BlockInterval>, ops': seq<BlockInterval>)
    requires Canonical(s) && |s| <= MAX_RUNS && AllAccepted(s, ops) && AllAccepted(s, ops')
    requires multiset(ops) == multiset(ops')
    ensures AddAll(s, ops) == AddAll(s, ops')
  {
    assert |ops| == |multiset(ops)| == |multiset(ops')| == |ops'|;
    forall i | 0 <= i < |ops'|
      ensures ops'[i] in ops
    {
      assert ops'[i] in multiset(ops');
    }
    forall i | 0 <= i < |ops|
      ensures ops[i] in ops'
    {
      assert ops[i] in multiset(ops);
    }
    forall x
      ensures Has(ops, x) <==> Has(ops', x)
    {
      if Has(ops, x) {
        var k :| 0 <= k < |ops| && ops[k].Contains(x);
        var j :| 0 <= j < |ops'| && ops'[j] == ops[k];
        assert ops'[j].Contains(x);
      }
      if Has(ops', x) {
        var k :| 0 <= k < |ops'| && ops'[k].Contains(x);
        var j :| 0 <= j < |ops| && ops[j] == ops'[k];
        assert ops[j].Contains(x);
      }
    }
    AddOrderIrrelevant(s, ops, ops');
  }
}
