/**
 `AddInterval` on arrays that took intervals whose end wraps: such a run is kept but answers for no
 block, and the runs around it still hold exactly the blocks of the valid intervals.
 */
module RunWrapping {
  import opened Words
  import opened Runs
  import opened RunInsertion

  /** Some run that does not wrap holds block x. */
  ghost predicate HasSound(s: seq<BlockInterval>, x: int) {
    exists i :: 0 <= i < |s| && s[i].Sound() && s[i].Contains(x)
  }

  /** The canonical form up to wrapping runs, which may overlap whatever comes after them. */
  ghost predicate Tidy(s: seq<BlockInterval>) {
    && (forall i :: 0 <= i < |s| ==> 0 < s[i].size)
    && (forall i, j :: 0 <= i < j < |s| ==> s[i].start <= s[j].start)
    && (forall i, j :: 0 <= i < j < |s| && s[i].Sound() ==> s[i].End() < s[j].start)
  }

  lemma CanonicalIsTidy(s: seq<BlockInterval>)
    requires Canonical(s)
    ensures Tidy(s) && forall x :: HasSound(s, x) <==> Has(s, x)
  {
    forall i, j | 0 <= i < j < |s|
      ensures s[i].start <= s[j].start && s[i].End() < s[j].start
    {
      assert s[i].Sound();
    }
    forall x | Has(s, x)
      ensures HasSound(s, x)
    {
      var i :| 0 <= i < |s| && s[i].Contains(x);
      assert s[i].Sound();
    }
  }

  /** `FindBlock` on a tidy list finds exactly the blocks of the runs that do not wrap. */
  lemma {:induction false} FindsFromIsHasSound(s: seq<BlockInterval>, i: nat, block: u32)
    requires Tidy(s) && i <= |s|
    requires forall k :: 0 <= k < i ==> !(s[k].Sound() && s[k].Contains(block))
    ensures FindsFrom(s, i, block) <==> HasSound(s, block)
    decreases |s| - i
  {
    if i < |s| && s[i].start <= block {
      if block < s[i].End() {
        assert s[i].Sound() && s[i].Contains(block);
      } else {
        FindsFromIsHasSound(s, i + 1, block);
      }
    } else {
      forall k | 0 <= k < |s|
        ensures !(s[k].Sound() && s[k].Contains(block))
      {
        assert i < k ==> s[i].start <= s[k].start;
      }
    }
  }

  // ---------------------------------------------------------------- the three changes of the array

  ghost predicate IsSoundUnion(r: seq<BlockInterval>, s: seq<BlockInterval>, lo: int, hi: int) {
    Tidy(r) && forall x :: HasSound(r, x) <==> HasSound(s, x) || lo <= x < hi
  }

  lemma HasSoundRemove(s: seq<BlockInterval>, i: nat)
    requires i < |s|
    ensures forall x :: HasSound(s, x) <==> HasSound(Remove(s, i), x) || (s[i].Sound() && s[i].Contains(x))
  {
    var r := Remove(s, i);
    forall x: int
      ensures HasSound(s, x) <==> HasSound(r, x) || (s[i].Sound() && s[i].Contains(x))
    {
      if HasSound(r, x) {
        var k :| 0 <= k < |r| && r[k].Sound() && r[k].Contains(x);
        assert s[if k < i then k else k + 1] == r[k];
      }
      if HasSound(s, x) && !(s[i].Sound() && s[i].Contains(x)) {
        var k :| 0 <= k < |s| && s[k].Sound() && s[k].Contains(x);
        assert r[if k < i then k else k - 1] == s[k];
      }
    }
  }

  lemma TidyRemove(s: seq<BlockInterval>, i: nat)
    requires i < |s| && Tidy(s)
    ensures Tidy(Remove(s, i))
  {
    var r := Remove(s, i);
    assert forall k :: 0 <= k < |r| ==> r[k] == s[if k < i then k else k + 1];
  }

  lemma HasSoundInsert(s: seq<BlockInterval>, i: nat, b: BlockInterval)
    requires i <= |s| != MAX_RUNS
    ensures forall x :: HasSound(Insert(s, i, b), x) <==> HasSound(s, x) || (b.Sound() && b.Contains(x))
  {
    var r := Insert(s, i, b);
    HasSoundRemove(r, i);
    assert Remove(r, i) == s && r[i] == b;
  }

  /** A list whose runs keep their order, with one between the first i and the others. */
  lemma TidyWithOneMore(s: seq<BlockInterval>, i: nat, r: seq<BlockInterval>)
    requires i <= |s| && Tidy(s) && |r| == |s| + 1 && 0 < r[i].size
    requires forall k :: 0 <= k < i ==>
               r[k] == s[k] && s[k].start <= r[i].start && (s[k].Sound() ==> s[k].End() < r[i].start)
    requires forall k :: i < k < |r| ==>
               r[k] == s[k - 1] && r[i].start <= r[k].start && (r[i].Sound() ==> r[i].End() < r[k].start)
    ensures Tidy(r)
  {
    forall k, l | 0 <= k < l < |r|
      ensures r[k].start <= r[l].start && (r[k].Sound() ==> r[k].End() < r[l].start)
    {
    }
  }

  lemma TidyInsert(s: seq<BlockInterval>, i: nat, b: BlockInterval)
    requires i <= |s| != MAX_RUNS && Tidy(s) && 0 < b.size
    requires forall k :: 0 <= k < i ==> s[k].start <= b.start && (s[k].Sound() ==> s[k].End() < b.start)
    requires forall k :: i <= k < |s| ==> b.start <= s[k].start && (b.Sound() ==> b.End() < s[k].start)
    ensures Tidy(Insert(s, i, b))
  {
    TidyWithOneMore(s, i, Insert(s, i, b));
  }

  /** A run may grow as long as it stays clear of its neighbours. */
  lemma TidyGrow(s: seq<BlockInterval>, i: nat, b: BlockInterval)
    requires i < |s| && Tidy(s) && s[i].Sound() && b.Sound()
    requires b.start <= s[i].start && s[i].End() <= b.End()
    requires forall k :: 0 <= k < i ==> s[k].start <= b.start && (s[k].Sound() ==> s[k].End() < b.start)
    requires i + 1 < |s| ==> b.End() < s[i + 1].start
    ensures Tidy(s[i := b])
    ensures forall x :: HasSound(s[i := b], x) <==> HasSound(s, x) || b.Contains(x)
  {
    var r := s[i := b];
    forall k | i < k < |s|
      ensures b.End() < s[k].start
    {
      assert s[i + 1].start <= s[k].start;
    }
    forall x
      ensures HasSound(r, x) <==> HasSound(s, x) || b.Contains(x)
    {
      if HasSound(s, x) {
        var k :| 0 <= k < |s| && s[k].Sound() && s[k].Contains(x);
        assert k != i ==> r[k] == s[k];
        assert k == i ==> r[i].Contains(x);
      }
      if b.Contains(x) {
        assert r[i].Contains(x);
      }
    }
  }

  // ---------------------------------------------------------------- inserting a valid interval

  /** The run gives way to the interval [lo, hi): it touches it, or it wraps and begins inside. */
  predicate GivesWay(b: BlockInterval, lo: int, hi: int) {
    b.start <= hi && (if b.Sound() then lo <= b.End() else lo < b.start)
  }

  /** There is a free run slot, or one that the interval will free or share. */
  ghost predicate HasRoom(s: seq<BlockInterval>, lo: int, hi: int) {
    |s| < MAX_RUNS || exists i :: 0 <= i < |s| && GivesWay(s[i], lo, hi)
  }

  /** The scan has passed over the runs before i. */
  ghost predicate ScannedTo(s: seq<BlockInterval>, i: nat, start: int) {
    i <= |s| && forall k :: 0 <= k < i ==> s[k].start <= start && s[k].End() < start
  }

  /** What the insertion has done: the union, or nothing for want of room. */
  ghost predicate Added(r: seq<BlockInterval>, s: seq<BlockInterval>, start: int, end: int) {
    if HasRoom(s, start, end) then IsSoundUnion(r, s, start, end) && |r| <= |s| + 1 && |r| <= MAX_RUNS else r == s
  }

  lemma AddedByInsert(s: seq<BlockInterval>, i: nat, start: u32, size: u32)
    requires Tidy(s) && |s| <= MAX_RUNS && 0 < size && start + size <= UINT_MAX
    requires ScannedTo(s, i, start) && (i < |s| ==> start + size < s[i].start)
    ensures Added(Insert(s, i, BlockInterval(start, size)), s, start, start + size)
  {
    var b := BlockInterval(start, size);
    forall k | i <= k < |s|
      ensures b.End() < s[k].start
    {
      assert i < k ==> s[i].start <= s[k].start;
    }
    if |s| == MAX_RUNS {
      assert forall k :: 0 <= k < |s| ==> !GivesWay(s[k], start, start + size);
    } else {
      TidyInsert(s, i, b);
      HasSoundInsert(s, i, b);
    }
  }

  lemma AddedByGrowing(s: seq<BlockInterval>, i: nat, start: u32, size: u32, b: BlockInterval)
    requires Tidy(s) && |s| <= MAX_RUNS && 0 < size && start + size <= UINT_MAX
    requires ScannedTo(s, i, start) && i < |s| && s[i].Sound() && b.Sound()
    requires b.start == Min(start, s[i].start) && b.End() == Max(start + size, s[i].End())
    requires s[i].start <= start + size && start <= s[i].End()
    requires i + 1 < |s| ==> b.End() < s[i + 1].start
    ensures Added(s[i := b], s, start, start + size)
  {
    assert GivesWay(s[i], start, start + size);
    forall k | 0 <= k < i
      ensures s[k].start <= b.start && (s[k].Sound() ==> s[k].End() < b.start)
    {
      assert s[k].start <= s[i].start && (s[k].Sound() ==> s[k].End() < s[i].start);
    }
    TidyGrow(s, i, b);
    GrownUnion(s[i := b], s, i, b, start, start + size);
  }

  lemma GrownUnion(r: seq<BlockInterval>, s: seq<BlockInterval>, i: nat, b: BlockInterval, lo: int, hi: int)
    requires i < |s| && s[i].Sound() && b.Sound() && lo <= hi
    requires b.start == Min(lo, s[i].start) && b.End() == Max(hi, s[i].End())
    requires s[i].start <= hi && lo <= s[i].End()
    requires Tidy(r) && forall x :: HasSound(r, x) <==> HasSound(s, x) || b.Contains(x)
    ensures IsSoundUnion(r, s, lo, hi)
  {
    forall x: int
      ensures HasSound(r, x) <==> HasSound(s, x) || lo <= x < hi
    {
      assert s[i].Contains(x) ==> HasSound(s, x);
      assert b.Contains(x) <==> s[i].Contains(x) || lo <= x < hi;
    }
  }

  /** A run that wraps or is covered by what is added may be deleted first. */
  lemma AddedAfterRemove(r: seq<BlockInterval>, s: seq<BlockInterval>, i: nat, start: int, lo: int, end: int)
    requires i < |s| <= MAX_RUNS && Tidy(s) && GivesWay(s[i], start, end)
    requires Added(r, Remove(s, i), lo, end)
    requires if s[i].Sound() then lo == Min(start, s[i].start) && s[i].End() <= end else lo == start
    ensures Added(r, s, start, end)
  {
    TidyRemove(s, i);
    HasSoundRemove(s, i);
    assert HasRoom(Remove(s, i), lo, end) && HasRoom(s, start, end);
    forall x
      ensures HasSound(r, x) <==> HasSound(s, x) || start <= x < end
    {
    }
  }

  lemma {:induction false} AddFromAdds(s: seq<BlockInterval>, i: nat, start: u32, size: u32)
    requires Tidy(s) && |s| <= MAX_RUNS && 0 < size && start + size <= UINT_MAX && ScannedTo(s, i, start)
    ensures Added(AddFrom(s, i, start, size), s, start, start + size)
    decreases |s|, |s| - i
  {
    var end := start + size;
    if i == |s| || end < s[i].start {
      AddedByInsert(s, i, start, size);
    } else if s[i].start <= start && s[i].End() < start {
      AddFromAdds(s, i + 1, start, size);
    } else if s[i].End() < end && (s[i].start <= start ==> i + 1 < |s| && s[i + 1].start <= end) {
      AddedByMerging(s, i, start, size);
    } else {
      GrowResult(s, i, start, size, Hull(s[i], start, end));
      AddedByGrowing(s, i, start, size, Hull(s[i], start, end));
    }
  }

  function Hull(b: BlockInterval, lo: u32, hi: u32): BlockInterval
    requires b.Sound() && lo <= hi
  {
    var start := if lo <= b.start then lo else b.start;
    BlockInterval(start, (if hi <= b.End() then b.End() else hi) - start)
  }

  lemma {:induction false} AddedByMerging(s: seq<BlockInterval>, i: nat, start: u32, size: u32)
    requires Tidy(s) && |s| <= MAX_RUNS && 0 < size && start + size <= UINT_MAX
    requires ScannedTo(s, i, start) && i < |s| && s[i].start <= start + size && s[i].End() < start + size
    requires s[i].start <= start ==> start <= s[i].End() && i + 1 < |s| && s[i + 1].start <= start + size
    ensures Added(AddFrom(s, i, start, size), s, start, start + size)
    decreases |s|, 0
  {
    var end := start + size;
    var lo := if s[i].start <= start then s[i].start else start;
    TidyRemove(s, i);
    HasSoundRemove(s, i);
    assert AddFrom(s, i, start, size) == AddFrom(Remove(s, i), 0, lo, end - lo);
    AddFromAdds(Remove(s, i), 0, lo, end - lo);
    AddedAfterRemove(AddFrom(s, i, start, size), s, i, start, lo, end);
  }

  // ---------------------------------------------------------------- inserting an interval that wraps

  lemma {:induction false} AddFromWrapping(s: seq<BlockInterval>, i: nat, start: u32, size: u32)
    requires Tidy(s) && |s| <= MAX_RUNS && UINT_MAX < start + size && ScannedTo(s, i, start)
    ensures var r := AddFrom(s, i, start, size);
            Tidy(r) && |r| <= |s| + 1 && |r| <= MAX_RUNS && forall x :: HasSound(r, x) <==> HasSound(s, x)
    decreases |s| - i
  {
    if i == |s| || start < s[i].start {
      if |s| != MAX_RUNS {
        TidyInsert(s, i, BlockInterval(start, size));
        HasSoundInsert(s, i, BlockInterval(start, size));
      }
    } else if s[i].End() < start {
      AddFromWrapping(s, i + 1, start, size);
    }
  }

  /**
   Exactly what a wrapping insertion leaves: nothing changes if a run that does not wrap holds its
   first block or ends right before it, or if the array is full; else the interval is put as it is
   behind all runs that begin no later.
   */
  lemma {:induction false} WrappingAddEffect(s: seq<BlockInterval>, i: nat, start: u32, size: u32) returns (p: nat)
    requires Tidy(s) && UINT_MAX < start + size && ScannedTo(s, i, start)
    ensures p <= |s| && (forall k :: 0 <= k < p ==> s[k].start <= start)
    ensures var held := exists k :: 0 <= k < |s| && s[k].Sound() && s[k].start <= start <= s[k].End();
            && (held || |s| == MAX_RUNS ==> AddFrom(s, i, start, size) == s)
            && (!held ==> forall k :: p <= k < |s| ==> start < s[k].start)
            && (!held && |s| != MAX_RUNS ==>
                  AddFrom(s, i, start, size) == s[..p] + [BlockInterval(start, size)] + s[p..])
    decreases |s| - i
  {
    p := i;
    if i < |s| && s[i].start <= start {
      if s[i].End() < start {
        p := WrappingAddEffect(s, i + 1, start, size);
      } else {
        assert s[i].Sound();
      }
    } else {
      forall k | i <= k < |s|
        ensures start < s[k].start
      {
        assert i < k ==> s[i].start <= s[k].start;
      }
    }
  }

  // ---------------------------------------------------------------- any sequence of insertions

  /**
   On a tidy list a valid interval adds exactly its blocks if and only if there is room for it, and
   is dropped otherwise; any other interval adds no block. The list stays tidy.
   */
  lemma AddIsSoundUnionIff(s: seq<BlockInterval>, b: BlockInterval)
    requires Tidy(s) && |s| <= MAX_RUNS
    ensures var r := AddRuns(s, b.start, b.size);
            && Tidy(r) && |r| <= |s| + 1 && |r| <= MAX_RUNS
            && (b.Sound() ==>
                  (IsSoundUnion(r, s, b.start, b.start + b.size) <==> HasRoom(s, b.start, b.start + b.size)))
            && (b.Sound() && !HasRoom(s, b.start, b.start + b.size) ==> r == s)
            && (!b.Sound() ==> forall x :: HasSound(r, x) <==> HasSound(s, x))
  {
    if b.Sound() {
      AddFromAdds(s, 0, b.start, b.size);
      if !HasRoom(s, b.start, b.start + b.size) {
        forall k | 0 <= k < |s|
          ensures !(s[k].Sound() && s[k].Contains(b.start))
        {
          assert !GivesWay(s[k], b.start, b.start + b.size);
        }
        assert !HasSound(s, b.start);
      }
    } else if b.size != 0 && b.start != UINT_MAX {
      AddFromWrapping(s, 0, b.start, b.size);
    }
  }

  /** Every valid interval finds room at its turn. */
  ghost predicate AllRoom(ops: seq<BlockInterval>) {
    forall k :: 0 <= k < |ops| && ops[k].Sound() ==>
      HasRoom(AddAll([], ops[..k]), ops[k].start, ops[k].start + ops[k].size)
  }

  lemma HasSoundInit(ops: seq<BlockInterval>, k: nat)
    requires k < |ops|
    ensures forall x :: HasSound(ops[..k + 1], x) <==> HasSound(ops[..k], x) || (ops[k].Sound() && ops[k].Contains(x))
  {
    forall x
      ensures HasSound(ops[..k + 1], x) <==> HasSound(ops[..k], x) || (ops[k].Sound() && ops[k].Contains(x))
    {
      if HasSound(ops[..k], x) {
        var i :| 0 <= i < k && ops[..k][i].Sound() && ops[..k][i].Contains(x);
        assert ops[..k + 1][i].Contains(x);
      }
      if ops[k].Sound() && ops[k].Contains(x) {
        assert ops[..k + 1][k].Contains(x);
      }
      if HasSound(ops[..k + 1], x) {
        var i :| 0 <= i <= k && ops[..k + 1][i].Sound() && ops[..k + 1][i].Contains(x);
        assert i < k ==> ops[..k][i].Contains(x);
      }
    }
  }

  /** Whatever is inserted: the array stays tidy and holds no block that no valid interval held. */
  lemma {:induction false} AddAllTidy(ops: seq<BlockInterval>)
    ensures Tidy(AddAll([], ops)) && |AddAll([], ops)| <= MAX_RUNS && |AddAll([], ops)| <= |ops|
    ensures forall x :: HasSound(AddAll([], ops), x) ==> HasSound(ops, x)
  {
    if ops == [] {
      assert forall x :: !HasSound(AddAll([], ops), x);
    } else {
      var n := |ops| - 1;
      AddAllTidy(ops[..n]);
      AddStep(ops, n);
      assert ops[..n + 1] == ops;
    }
  }

  /** What interval k does to the array that the intervals before it have made. */
  lemma AddStep(ops: seq<BlockInterval>, k: nat)
    requires k < |ops| && Tidy(AddAll([], ops[..k])) && |AddAll([], ops[..k])| <= MAX_RUNS
    ensures AddAll([], ops[..k + 1]) == AddRuns(AddAll([], ops[..k]), ops[k].start, ops[k].size)
    ensures Tidy(AddAll([], ops[..k + 1])) && |AddAll([], ops[..k + 1])| <= MAX_RUNS
    ensures |AddAll([], ops[..k + 1])| <= |AddAll([], ops[..k])| + 1
    ensures forall x :: HasSound(AddAll([], ops[..k + 1]), x) ==>
              HasSound(AddAll([], ops[..k]), x) || (ops[k].Sound() && ops[k].Contains(x))
    ensures forall x :: HasSound(ops[..k + 1], x) <==> HasSound(ops[..k], x) || (ops[k].Sound() && ops[k].Contains(x))
  {
    assert ops[..k + 1][..k] == ops[..k];
    AddIsSoundUnionIff(AddAll([], ops[..k]), ops[k]);
    HasSoundInit(ops, k);
  }

  /** The array holds exactly the blocks of the valid intervals. */
  ghost predicate HoldsValid(ops: seq<BlockInterval>) {
    forall x :: HasSound(AddAll([], ops), x) <==> HasSound(ops, x)
  }

  /** Interval k keeps that so exactly if it is not valid or finds room. */
  lemma HoldsValidStep(ops: seq<BlockInterval>, k: nat)
    requires k < |ops| && HoldsValid(ops[..k])
    ensures HoldsValid(ops[..k + 1]) <==>
            ops[k].Sound() ==> HasRoom(AddAll([], ops[..k]), ops[k].start, ops[k].start + ops[k].size)
  {
    AddAllTidy(ops[..k]);
    AddStep(ops, k);
    AddIsSoundUnionIff(AddAll([], ops[..k]), ops[k]);
    forall x
      ensures ops[k].Sound() ==> (ops[k].Contains(x) <==> ops[k].start <= x < ops[k].start + ops[k].size)
    {
    }
  }

  lemma {:induction false} RoomHoldsValid(ops: seq<BlockInterval>, k: nat)
    requires AllRoom(ops) && k <= |ops|
    ensures HoldsValid(ops[..k])
  {
    if 0 < k {
      RoomHoldsValid(ops, k - 1);
      HoldsValidStep(ops, k - 1);
    }
  }

  /**
   At every moment the array holds exactly the blocks of the valid intervals inserted so far, if and
   only if each of them found room; a history as short as an array is long always does.
   */
  lemma AlwaysHoldsValidIff(ops: seq<BlockInterval>)
    ensures AllRoom(ops) <==> forall k :: 0 <= k <= |ops| ==> HoldsValid(ops[..k])
    ensures |ops| <= MAX_RUNS ==> AllRoom(ops)
  {
    if AllRoom(ops) {
      forall k | 0 <= k <= |ops|
        ensures HoldsValid(ops[..k])
      {
        RoomHoldsValid(ops, k);
      }
    }
    if forall k :: 0 <= k <= |ops| ==> HoldsValid(ops[..k]) {
      forall k | 0 <= k < |ops| && ops[k].Sound()
        ensures HasRoom(AddAll([], ops[..k]), ops[k].start, ops[k].start + ops[k].size)
      {
        assert HoldsValid(ops[..k]) && HoldsValid(ops[..k + 1]);
        HoldsValidStep(ops, k);
      }
    }
    if |ops| <= MAX_RUNS {
      forall k | 0 <= k < |ops|
        ensures |AddAll([], ops[..k])| < MAX_RUNS
      {
        AddAllTidy(ops[..k]);
      }
    }
  }

  // ---------------------------------------------------------------- what is found

  /** `FindBlock` answers exactly for the blocks of the valid intervals. */
  ghost predicate AnswersValid(ops: seq<BlockInterval>) {
    forall block: u32 :: Finds(AddAll([], ops), block) <==> HasSound(ops, block)
  }

  /** It answers for the blocks that the array holds in runs that do not wrap, and so for no other block. */
  lemma FindsOnlyValid(ops: seq<BlockInterval>, block: u32)
    ensures Finds(AddAll([], ops), block) <==> HasSound(AddAll([], ops), block)
    ensures Finds(AddAll([], ops), block) ==> HasSound(ops, block)
  {
    AddAllTidy(ops);
    FindsFromIsHasSound(AddAll([], ops), 0, block);
  }

  lemma AnswersIffHolds(ops: seq<BlockInterval>)
    ensures AnswersValid(ops) <==> HoldsValid(ops)
  {
    forall block: u32
      ensures Finds(AddAll([], ops), block) <==> HasSound(AddAll([], ops), block)
    {
      FindsOnlyValid(ops, block);
    }
    if AnswersValid(ops) {
      forall x
        ensures HasSound(AddAll([], ops), x) <==> HasSound(ops, x)
      {
        SoundBlocks(AddAll([], ops), x);
        SoundBlocks(ops, x);
        if 0 <= x <= UINT_MAX {
          var block: u32 := x;
          assert Finds(AddAll([], ops), block) <==> HasSound(ops, block);
        }
      }
    }
  }

  lemma SoundBlocks(s: seq<BlockInterval>, x: int)
    ensures HasSound(s, x) ==> 0 <= x <= UINT_MAX
  {
  }

  /**
   At every moment `FindBlock` answers exactly for the blocks of the valid intervals inserted so far,
   if and only if each of them found room, whatever other intervals came in between.
   */
  lemma AlwaysAnswersValidIff(ops: seq<BlockInterval>)
    ensures AllRoom(ops) <==> forall k :: 0 <= k <= |ops| ==> AnswersValid(ops[..k])
  {
    AlwaysHoldsValidIff(ops);
    forall k | 0 <= k <= |ops|
      ensures AnswersValid(ops[..k]) <==> HoldsValid(ops[..k])
    {
      AnswersIffHolds(ops[..k]);
    }
  }

  lemma FindsGivenRoom(ops: seq<BlockInterval>, block: u32)
    requires AllRoom(ops)
    ensures Finds(AddAll([], ops), block) <==> HasSound(ops, block)
  {
    RoomHoldsValid(ops, |ops|);
    assert ops[..|ops|] == ops;
    FindsOnlyValid(ops, block);
  }

  lemma HasSoundConcat(a: seq<BlockInterval>, b: seq<BlockInterval>, x: int)
    ensures HasSound(a + b, x) <==> HasSound(a, x) || HasSound(b, x)
  {
    if HasSound(a, x) {
      var i :| 0 <= i < |a| && a[i].Sound() && a[i].Contains(x);
      assert (a + b)[i] == a[i];
    }
    if HasSound(b, x) {
      var i :| 0 <= i < |b| && b[i].Sound() && b[i].Contains(x);
      assert (a + b)[|a| + i] == b[i];
    }
  }

  /** A small case: the interval that wraps stays in the array, hides nothing and answers for nothing. */
  lemma WrappingRunIsHarmless(block: u32)
    ensures var ops := [BlockInterval(10, UINT_MAX), BlockInterval(20, 5)];
            AddAll([], ops) == ops && (Finds(ops, block) <==> 20 <= block < 25)
  {
    var w, b := BlockInterval(10, UINT_MAX), BlockInterval(20, 5);
    var ops := [w, b];
    assert ops[..1] == [w] && [w][..0] == [];
    assert AddAll([], [w]) == AddFrom([], 0, 10, UINT_MAX) == [w];
    assert AddFrom([w], 0, 20, 5) == AddFrom([w], 1, 20, 5) == ops;
    assert ops[0] == w && ops[1] == b;
    assert FindsFrom(ops, 1, block) <==> 20 <= block < 25;
  }
}
