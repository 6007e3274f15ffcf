/**
 The random part of `get_np_address`: which group of peers each round settles on, as a function
 of the draws alone.
 */
module GroupDraws {
  import opened Modular

  /** `rand`: draw number f of a round of the outer loop. */
  type Draws = (nat, nat) -> nat

  /** Where a round has got to: the group it holds, or -1, and the tags of all groups, -1 once drawn. */
  datatype Pick = Pick(pos: int, tags: seq<int>)

  predicate Tags(tags: seq<int>) {
    forall i :: 0 <= i < |tags| ==> tags[i] == i || tags[i] == -1
  }

  function AllTags(groups: nat): (tags: seq<int>)
    ensures |tags| == groups && Tags(tags) && forall i :: 0 <= i < groups ==> tags[i] == i
  {
    if groups == 0 then [] else AllTags(groups - 1) + [groups - 1]
  }

  /** After f draws of a round; a draw that is zero changes nothing. */
  function AfterDraws(tags: seq<int>, draws: Draws, round: nat, f: nat): (p: Pick)
    requires tags != [] && Tags(tags)
    ensures |p.tags| == |tags| && Tags(p.tags) && -1 <= p.pos < |tags|
  {
    if f == 0 then
      Pick(0, tags)
    else
      var p := AfterDraws(tags, draws, round, f - 1);
      var r := draws(round, f - 1);
      if r == 0 then p else Pick(p.tags[Residue(r, |tags|)], p.tags[Residue(r, |tags|) := -1])
  }

  /** The tags before round k; a round makes one draw for each group. */
  function TagsAt(groups: nat, draws: Draws, k: nat): (tags: seq<int>)
    requires 0 < groups
    ensures |tags| == groups && Tags(tags)
  {
    if k == 0 then AllTags(groups) else AfterDraws(TagsAt(groups, draws, k - 1), draws, k - 1, groups).tags
  }

  /** The group that round k settles on, or -1. */
  function GroupOf(groups: nat, draws: Draws, k: nat): (g: int)
    requires 0 < groups
    ensures -1 <= g < groups
  {
    AfterDraws(TagsAt(groups, draws, k), draws, k, groups).pos
  }

  // ---------------------------------------------------------------- what the draws say

  /** Draw f of round r is not zero and names the group. */
  predicate Names(groups: nat, draws: Draws, r: nat, f: nat, group: nat)
    requires 0 < groups
  {
    draws(r, f) != 0 && Residue(draws(r, f), groups) == group
  }

  /** The group was named before draw f of round k. */
  ghost predicate DrawnBefore(groups: nat, draws: Draws, k: nat, f: nat, group: nat)
    requires 0 < groups
  {
    exists r: nat, d: nat :: (if r == k then d < f else r < k && d < groups) && Names(groups, draws, r, d, group)
  }

  /** Draw f is the last one of round k that is not zero. */
  ghost predicate LastDraw(groups: nat, draws: Draws, k: nat, f: nat) {
    f < groups && draws(k, f) != 0 && forall d :: f < d < groups ==> draws(k, d) == 0
  }

  ghost predicate IdleRound(groups: nat, draws: Draws, k: nat) {
    forall d :: 0 <= d < groups ==> draws(k, d) == 0
  }

  ghost predicate NoIdleRound(draws: Draws, groups: nat) {
    forall k: nat :: !IdleRound(groups, draws, k)
  }

  ghost predicate NoZeroDraw(draws: Draws) {
    forall r, f :: draws(r, f) != 0
  }

  lemma NonzeroIsNotIdle(draws: Draws, groups: nat)
    requires 0 < groups && NoZeroDraw(draws)
    ensures NoIdleRound(draws, groups)
  {
    forall k: nat
      ensures !IdleRound(groups, draws, k)
    {
      assert draws(k, 0) != 0;
    }
  }

  lemma OneMoreDraw(groups: nat, draws: Draws, k: nat, f: nat, group: nat)
    requires f < groups
    ensures DrawnBefore(groups, draws, k, f + 1, group) <==>
            DrawnBefore(groups, draws, k, f, group) || Names(groups, draws, k, f, group)
  {
    if DrawnBefore(groups, draws, k, f + 1, group) {
      var r: nat, d: nat :|
        (if r == k then d < f + 1 else r < k && d < groups) && Names(groups, draws, r, d, group);
      assert (r == k && d == f) || DrawnBefore(groups, draws, k, f, group);
    }
  }

  lemma NextRound(groups: nat, draws: Draws, k: nat, group: nat)
    requires 0 < groups
    ensures DrawnBefore(groups, draws, k + 1, 0, group) <==> DrawnBefore(groups, draws, k, groups, group)
  {
    if DrawnBefore(groups, draws, k + 1, 0, group) {
      var r: nat, d: nat :|
        (if r == k + 1 then d < 0 else r < k + 1 && d < groups) && Names(groups, draws, r, d, group);
      assert if r == k then d < groups else r < k && d < groups;
    }
    if DrawnBefore(groups, draws, k, groups, group) {
      var r: nat, d: nat :| (if r == k then d < groups else r < k && d < groups) && Names(groups, draws, r, d, group);
      assert r < k + 1 && d < groups;
    }
  }

  /** A group's tag is gone exactly if the group was drawn before. */
  lemma {:induction false} TagsTell(groups: nat, draws: Draws, k: nat, f: nat, group: nat)
    requires group < groups && f <= groups
    ensures AfterDraws(TagsAt(groups, draws, k), draws, k, f).tags[group] ==
            if DrawnBefore(groups, draws, k, f, group) then -1 else group
    decreases k, f
  {
    if 0 < f {
      TagsTell(groups, draws, k, f - 1, group);
      OneMoreDraw(groups, draws, k, f - 1, group);
    } else if 0 < k {
      TagsTell(groups, draws, k - 1, groups, group);
      NextRound(groups, draws, k - 1, group);
    }
  }

  /** Draws of zero keep what the round has. */
  lemma {:induction false} ZerosKeep(tags: seq<int>, draws: Draws, k: nat, f: nat, upTo: nat)
    requires tags != [] && Tags(tags) && f <= upTo
    requires forall d :: f <= d < upTo ==> draws(k, d) == 0
    ensures AfterDraws(tags, draws, k, upTo) == AfterDraws(tags, draws, k, f)
  {
    if f < upTo {
      ZerosKeep(tags, draws, k, f, upTo - 1);
    }
  }

  /** The last draw of a round that is not zero decides: its group, unless that was drawn before. */
  lemma LastDrawDecides(groups: nat, draws: Draws, k: nat, f: nat)
    requires LastDraw(groups, draws, k, f)
    ensures GroupOf(groups, draws, k) ==
            if DrawnBefore(groups, draws, k, f, Residue(draws(k, f), groups)) then -1 else Residue(draws(k, f), groups)
  {
    ZerosKeep(TagsAt(groups, draws, k), draws, k, f + 1, groups);
    TagsTell(groups, draws, k, f, Residue(draws(k, f), groups));
  }

  /** A round of zeros settles on the first group and marks nothing. */
  lemma IdleRoundTakesFirst(groups: nat, draws: Draws, k: nat)
    requires 0 < groups && IdleRound(groups, draws, k)
    ensures GroupOf(groups, draws, k) == 0 && TagsAt(groups, draws, k + 1) == TagsAt(groups, draws, k)
  {
    ZerosKeep(TagsAt(groups, draws, k), draws, k, 0, groups);
  }

  lemma {:induction false} FindLastDraw(groups: nat, draws: Draws, k: nat, upTo: nat) returns (f: nat)
    requires upTo <= groups && !IdleRound(groups, draws, k)
    requires forall d :: upTo <= d < groups ==> draws(k, d) == 0
    ensures LastDraw(groups, draws, k, f)
  {
    if draws(k, upTo - 1) != 0 {
      f := upTo - 1;
    } else {
      f := FindLastDraw(groups, draws, k, upTo - 1);
    }
  }

  /** A round settles on no group exactly if its last draw names a group that was drawn before. */
  lemma NoGroupIff(groups: nat, draws: Draws, k: nat)
    requires 0 < groups
    ensures GroupOf(groups, draws, k) == -1 <==>
            exists f :: LastDraw(groups, draws, k, f) && DrawnBefore(groups, draws, k, f, Residue(draws(k, f), groups))
  {
    if IdleRound(groups, draws, k) {
      IdleRoundTakesFirst(groups, draws, k);
    } else {
      var f := FindLastDraw(groups, draws, k, groups);
      LastDrawDecides(groups, draws, k, f);
      assert forall d :: LastDraw(groups, draws, k, d) ==> d == f;
    }
  }

  // ---------------------------------------------------------------- how long it can go on

  function Untried(tags: seq<int>): nat {
    if tags == [] then 0 else Untried(tags[1..]) + if tags[0] == -1 then 0 else 1
  }

  lemma {:induction false} MarkTried(tags: seq<int>, id: nat)
    requires id < |tags|
    ensures Untried(tags[id := -1]) == Untried(tags) - if tags[id] == -1 then 0 else 1
  {
    if id == 0 {
      assert tags[0 := -1][1..] == tags[1..];
    } else {
      MarkTried(tags[1..], id - 1);
      assert tags[id := -1][1..] == tags[1..][id - 1 := -1];
    }
  }

  lemma {:induction false} UntriedBound(tags: seq<int>)
    ensures Untried(tags) <= |tags|
  {
    if tags != [] {
      UntriedBound(tags[1..]);
    }
  }

  lemma {:induction false} DrawsMark(tags: seq<int>, draws: Draws, k: nat, f: nat)
    requires tags != [] && Tags(tags)
    ensures Untried(AfterDraws(tags, draws, k, f).tags) <= Untried(tags)
    ensures AfterDraws(tags, draws, k, f).pos != -1 && (exists d :: 0 <= d < f && draws(k, d) != 0) ==>
              Untried(AfterDraws(tags, draws, k, f).tags) < Untried(tags)
  {
    if 0 < f {
      var p := AfterDraws(tags, draws, k, f - 1);
      DrawsMark(tags, draws, k, f - 1);
      if draws(k, f - 1) != 0 {
        MarkTried(p.tags, Residue(draws(k, f - 1), |tags|));
      }
    }
  }

  /** A round that settles on a group marks a new one, unless it drew only zeros. */
  lemma RoundMarks(groups: nat, draws: Draws, k: nat)
    requires 0 < groups && GroupOf(groups, draws, k) != -1
    ensures if IdleRound(groups, draws, k) then TagsAt(groups, draws, k + 1) == TagsAt(groups, draws, k)
            else Untried(TagsAt(groups, draws, k + 1)) < Untried(TagsAt(groups, draws, k))
  {
    if IdleRound(groups, draws, k) {
      IdleRoundTakesFirst(groups, draws, k);
    } else {
      DrawsMark(TagsAt(groups, draws, k), draws, k, groups);
    }
  }

  /** Rounds 0 to m - 1 settle on a group each. */
  ghost predicate Settled(groups: nat, draws: Draws, m: nat)
    requires 0 < groups
  {
    forall k :: 0 <= k < m ==> GroupOf(groups, draws, k) != -1
  }

  lemma {:induction false} SettledMarks(groups: nat, draws: Draws, m: nat)
    requires 0 < groups && NoIdleRound(draws, groups) && Settled(groups, draws, m)
    ensures Untried(TagsAt(groups, draws, m)) <= groups - m
  {
    if m == 0 {
      UntriedBound(TagsAt(groups, draws, 0));
    } else {
      SettledMarks(groups, draws, m - 1);
      RoundMarks(groups, draws, m - 1);
    }
  }

  /** Without rounds of zeros, one of the first rounds, as many as there are groups and one, settles on no group. */
  lemma SomeRoundWithoutGroup(groups: nat, draws: Draws) returns (k: nat)
    requires 0 < groups && NoIdleRound(draws, groups)
    ensures k <= groups && GroupOf(groups, draws, k) == -1
  {
    if Settled(groups, draws, groups + 1) {
      SettledMarks(groups, draws, groups + 1);
    }
    k :| 0 <= k < groups + 1 && GroupOf(groups, draws, k) == -1;
  }

  /** Two rounds that are not all zeros never settle on the same group. */
  lemma NoGroupTwice(groups: nat, draws: Draws, i: nat, j: nat)
    requires 0 < groups && i < j && !IdleRound(groups, draws, i) && !IdleRound(groups, draws, j)
    requires GroupOf(groups, draws, i) != -1
    ensures GroupOf(groups, draws, i) != GroupOf(groups, draws, j)
  {
    var f := FindLastDraw(groups, draws, i, groups);
    var f' := FindLastDraw(groups, draws, j, groups);
    LastDrawDecides(groups, draws, i, f);
    LastDrawDecides(groups, draws, j, f');
    assert Names(groups, draws, i, f, Residue(draws(i, f), groups));
  }

  // ---------------------------------------------------------------- some draws

  /** A round whose only draw that is not zero is its first one. */
  lemma SingleDraw(groups: nat, draws: Draws, k: nat, group: nat)
    requires group < groups && draws(k, 0) != 0 && Residue(draws(k, 0), groups) == group
    requires forall d :: 0 < d < groups ==> draws(k, d) == 0
    ensures GroupOf(groups, draws, k) == if DrawnBefore(groups, draws, k, 0, group) then -1 else group
  {
    LastDrawDecides(groups, draws, k, 0);
  }

  /** Draws that settle on group g, then on group 0, then on none. */
  function Backwards(g: nat, groups: nat): Draws {
    (r, f) => if f != 0 then 0 else if r == 0 then g else groups
  }

  lemma BackwardsVisits(g: nat, groups: nat)
    requires 0 < g < groups
    ensures GroupOf(groups, Backwards(g, groups), 0) == g
    ensures GroupOf(groups, Backwards(g, groups), 1) == 0
    ensures GroupOf(groups, Backwards(g, groups), 2) == -1
  {
    var draws := Backwards(g, groups);
    SingleDraw(groups, draws, 0, g);
    SingleDraw(groups, draws, 1, 0);
    SingleDraw(groups, draws, 2, 0);
    assert Names(groups, draws, 1, 0, 0);
  }

  /** If there is only one group, the first round takes it and the second finds it taken. */
  lemma OnlyGroup(draws: Draws)
    requires NoZeroDraw(draws)
    ensures GroupOf(1, draws, 0) == 0 && GroupOf(1, draws, 1) == -1
  {
    SingleDraw(1, draws, 0, 0);
    SingleDraw(1, draws, 1, 0);
    assert Names(1, draws, 0, 0, 0);
  }
}
