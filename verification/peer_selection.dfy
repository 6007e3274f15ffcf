/** `get_np_address`: a randomised scan of the peer map in groups of thirty. */
module PeerSelection {
  import opened Words
  import opened Modular
  import opened Runs
  import opened IntervalArrays
  import opened NpManagers
  import opened GroupDraws
  import opened GroupSearch

  // ---------------------------------------------------------------- the answer as a function of the draws

  /** The group that each round settles on, by its draws. */
  function CourseOf(vs: seq<NodeView>, draws: Draws): Course {
    (k: nat) => GroupOf(Groups(vs), draws, k)
  }

  lemma CourseWithin(vs: seq<NodeView>, draws: Draws)
    ensures Within(vs, CourseOf(vs, draws))
  {
  }

  /** The groups not tried before each round. */
  function LeftOf(vs: seq<NodeView>, draws: Draws): nat -> nat {
    (k: nat) => Untried(TagsAt(Groups(vs), draws, k))
  }

  lemma RoundsUseUp(vs: seq<NodeView>, draws: Draws)
    ensures UsesUp(CourseOf(vs, draws), LeftOf(vs, draws))
  {
    var course, left := CourseOf(vs, draws), LeftOf(vs, draws);
    forall k: nat | 0 <= course(k)
      ensures left(k + 1) < left(k) || (left(k + 1) == left(k) && course(k) == 0)
    {
      RoundMarks(Groups(vs), draws, k);
      if IdleRound(Groups(vs), draws, k) {
        IdleRoundTakesFirst(Groups(vs), draws, k);
      }
    }
  }

  /** The peers that the search ends with, given the draws. */
  ghost predicate IsAnswer(vs: seq<NodeView>, q: Query, n: nat, draws: Draws, peers: seq<PeerInfo>) {
    EndsWith(vs, q, n, CourseOf(vs, draws), peers)
  }

  /** Nothing is asked for, somebody matches, or some round settles on no group. */
  ghost predicate Ends(vs: seq<NodeView>, q: Query, n: nat, draws: Draws) {
    CanEnd(vs, q, n, CourseOf(vs, draws))
  }

  // ---------------------------------------------------------------- the selection

  /** One draw per group; the last draw that is not zero decides. */
  method PickGroup(groupId: seq<int>, draws: Draws, round: nat) returns (pos: int, marked: seq<int>)
    requires groupId != [] && Tags(groupId)
    ensures Pick(pos, marked) == AfterDraws(groupId, draws, round, |groupId|)
  {
    pos, marked := 0, groupId;
    for f := 0 to |groupId|
      invariant Pick(pos, marked) == AfterDraws(groupId, draws, round, f)
    {
      var r := draws(round, f);
      if r != 0 {
        var id := r % |groupId|;
        ResidueIsRemainder(r, |groupId|);
        pos := marked[id];
        marked := marked[id := -1];
      }
    }
  }

  /** The nodes' states are vs. */
  ghost predicate Shows(nodes: seq<NPNode>, vs: seq<NodeView>)
    reads set i | 0 <= i < |nodes| :: nodes[i],
          set i | 0 <= i < |nodes| :: nodes[i].intervalArray,
          set i | 0 <= i < |nodes| :: nodes[i].intervalArray.runs
  {
    |vs| == |nodes| && forall i :: 0 <= i < |nodes| ==> nodes[i].Valid() && nodes[i].View() == vs[i]
  }

  method TestNode(node: NPNode, q: Query) returns (has: bool)
    requires node.Valid()
    ensures has <==> Matches(node.View(), q)
  {
    has := false;
    if node.channel == q.channel && node.digits != q.asking {
      has := node.intervalArray.FindBlock(q.block);
    }
  }

  /** The scan of one group: matching nodes are appended until the result is full. */
  method ScanGroup(nodes: seq<NPNode>, ghost vs: seq<NodeView>, from: nat, q: Query, inCount: nat, was: seq<PeerInfo>)
    returns (peers: seq<PeerInfo>, it: nat)
    requires from <= |nodes| && |was| <= inCount && Shows(nodes, vs)
    ensures from <= it <= |nodes| && |peers| <= inCount
    ensures it < |nodes| ==> |peers| == inCount
    ensures peers == was + Matching(vs[from..it], q)
  {
    it, peers := from, was;
    var limit := 0;
    while it < |nodes|
      invariant from <= it <= |nodes| && |peers| <= inCount
      invariant peers == was + Matching(vs[from..it], q)
      invariant limit == 0
    {
      if GROUP <= limit {
        break;
      }
      if |peers| >= inCount {
        break;
      }
      MatchingStep(vs, from, it, q);
      var has := TestNode(nodes[it], q);
      if has {
        peers := peers + [nodes[it].info];
      }
      it := it + 1;
    }
  }

  /** Seeks to a group and scans from there to the end of the map or until the result is full. */
  method TryGroup(nodes: seq<NPNode>, ghost vs: seq<NodeView>, pos: nat, q: Query, inCount: nat, was: seq<PeerInfo>,
                  ghost visited: seq<nat>)
    returns (peers: seq<PeerInfo>, it: nat)
    requires Shows(nodes, vs) && pos * GROUP <= |nodes|
    requires GroupStarts(visited, |vs|) && (|was| < inCount || inCount == 0)
    requires was == Take(Scans(vs, visited, q), inCount)
    ensures |peers| <= inCount && it <= |nodes|
    ensures GroupStarts(visited + [pos], |vs|)
    ensures peers == Take(Scans(vs, visited + [pos], q), inCount)
    ensures it < |nodes| ==> |peers| == inCount
  {
    it := 0;
    for m := 0 to pos * GROUP
      invariant it == m
    {
      it := it + 1;
    }
    peers, it := ScanGroup(nodes, vs, it, q, inCount, was);
    ScanTakes(vs, visited, pos, it, q, inCount, was, peers);
  }

  /** The body of the outer loop: picks a group, scans from it, and says whether that was the last round. */
  method TryRound(nodes: seq<NPNode>, ghost vs: seq<NodeView>, q: Query, draws: Draws, round: nat,
                  groupId: seq<int>, inCount: nat, was: seq<PeerInfo>, ghost course: Course)
    returns (done: bool, marked: seq<int>, peers: seq<PeerInfo>)
    requires Shows(nodes, vs) && groupId == TagsAt(Groups(vs), draws, round)
    requires Within(vs, course) && Going(course, round) && course(round) == GroupOf(Groups(vs), draws, round)
    requires was == Take(Offer(vs, q, course, round), inCount) && (|was| < inCount || inCount == 0)
    ensures marked == TagsAt(Groups(vs), draws, round + 1)
    ensures RoundResult(vs, q, inCount, course, round, was, done, peers)
  {
    var pos;
    pos, marked := PickGroup(groupId, draws, round);
    if pos == -1 {
      return true, marked, was;
    }
    VisitsStart(vs, course, round);
    var it;
    peers, it := TryGroup(nodes, vs, pos, q, inCount, was, Visits(course, round));
    done := it != |nodes| || |peers| >= inCount;
    ScanIsRoundResult(vs, q, inCount, course, round, was, pos, done, peers);
  }

  method GroupNumbers(groups: nat) returns (groupId: seq<int>)
    ensures groupId == AllTags(groups)
  {
    groupId := [];
    for i := 0 to groups
      invariant groupId == AllTags(i)
    {
      groupId := groupId + [i];
    }
  }

  /** A round of a search that stops with round `last` at the latest. */
  method NextRound(nodes: seq<NPNode>, ghost vs: seq<NodeView>, q: Query, draws: Draws, round: nat, groupId: seq<int>,
                   inCount: nat, was: seq<PeerInfo>, ghost course: Course, ghost last: nat)
    returns (done: bool, marked: seq<int>, peers: seq<PeerInfo>)
    requires Shows(nodes, vs) && groupId == TagsAt(Groups(vs), draws, round)
    requires course(round) == GroupOf(Groups(vs), draws, round) && Underway(vs, q, inCount, course, round, last, was)
    ensures marked == TagsAt(Groups(vs), draws, round + 1)
    ensures done ==> EndsWith(vs, q, inCount, course, peers)
    ensures !done ==> Underway(vs, q, inCount, course, round + 1, last, peers)
  {
    StillRoom(vs, q, inCount, course, round);
    done, marked, peers := TryRound(nodes, vs, q, draws, round, groupId, inCount, was, course);
    RoundDecides(vs, q, inCount, course, round, last, was, done, peers);
  }

  /** The outer loop, for a search that stops with round `last` at the latest. */
  method Search(nodes: seq<NPNode>, ghost vs: seq<NodeView>, q: Query, inCount: nat, draws: Draws, ghost last: nat)
    returns (peers: seq<PeerInfo>)
    requires Shows(nodes, vs) && Stops(vs, q, inCount, CourseOf(vs, draws), last)
    ensures EndsWith(vs, q, inCount, CourseOf(vs, draws), peers)
  {
    var groupId := GroupNumbers(|nodes| / GROUP + 1);
    ghost var course := CourseOf(vs, draws);
    var done, round := false, 0;
    peers := [];
    while !done
      invariant !done ==> groupId == TagsAt(Groups(vs), draws, round)
      invariant !done ==> Underway(vs, q, inCount, course, round, last, peers)
      invariant done ==> EndsWith(vs, q, inCount, course, peers)
      decreases if done then 0 else 1 + last - round
    {
      done, groupId, peers := NextRound(nodes, vs, q, draws, round, groupId, inCount, peers, course, last);
      round := round + 1;
    }
  }

  /**
   Ends whenever the search can end, with the answer that the draws determine: what the groups
   offer that the rounds settle on, in that order, cut to the number asked for.
   */
  method GetNpAddress(nodes: seq<NPNode>, ghost vs: seq<NodeView>, q: Query, inCount: nat, draws: Draws)
    returns (peers: seq<PeerInfo>)
    requires Shows(nodes, vs) && Ends(vs, q, inCount, draws)
    ensures IsAnswer(vs, q, inCount, draws, peers)
    ensures |peers| <= inCount && forall p :: p in peers ==> Offered(vs, q, p)
  {
    ghost var last := SearchStops(vs, q, inCount, draws);
    peers := Search(nodes, vs, q, inCount, draws, last);
    EndsWithOffered(vs, q, inCount, CourseOf(vs, draws), peers);
  }

  lemma SearchStops(vs: seq<NodeView>, q: Query, n: nat, draws: Draws) returns (m: nat)
    requires Ends(vs, q, n, draws)
    ensures Stops(vs, q, n, CourseOf(vs, draws), m)
    ensures Matching(vs, q) != [] ==> m <= Groups(vs) + n + 1
  {
    CourseWithin(vs, draws);
    RoundsUseUp(vs, draws);
    UntriedBound(TagsAt(Groups(vs), draws, 0));
    m := SearchEnds(vs, q, n, CourseOf(vs, draws), LeftOf(vs, draws));
  }

  // ---------------------------------------------------------------- what the answers are

  /** The search ends exactly under a condition on the map and the draws, and then in one answer. */
  lemma {:induction false} EndsIff(vs: seq<NodeView>, q: Query, n: nat, draws: Draws)
    ensures Ends(vs, q, n, draws) <==> exists peers :: IsAnswer(vs, q, n, draws, peers)
    ensures forall a, b :: IsAnswer(vs, q, n, draws, a) && IsAnswer(vs, q, n, draws, b) ==> a == b
  {
    var course := CourseOf(vs, draws);
    if Ends(vs, q, n, draws) {
      var m := SearchStops(vs, q, n, draws);
      assert IsAnswer(vs, q, n, draws, Take(Offer(vs, q, course, m), n));
    }
    if peers :| IsAnswer(vs, q, n, draws, peers) {
      var m :| Stops(vs, q, n, course, m) && peers == Take(Offer(vs, q, course, m), n);
      StopsCanEnd(vs, q, n, course, m);
    }
    forall a, b | IsAnswer(vs, q, n, draws, a) && IsAnswer(vs, q, n, draws, b)
      ensures a == b
    {
      EndsWithOnce(vs, q, n, course, a, b);
    }
  }

  /** Without a round of zeros it ends, after at most as many rounds as there are groups and one. */
  lemma EndsInTime(vs: seq<NodeView>, q: Query, n: nat, draws: Draws)
    requires NoIdleRound(draws, Groups(vs)) || NoZeroDraw(draws)
    ensures Ends(vs, q, n, draws)
    ensures forall m: nat :: Stops(vs, q, n, CourseOf(vs, draws), m) ==> m <= Groups(vs)
  {
    if NoZeroDraw(draws) {
      NonzeroIsNotIdle(draws, Groups(vs));
    }
    var k := SomeRoundWithoutGroup(Groups(vs), draws);
    assert CourseOf(vs, draws)(k) < 0;
  }

  /** With fewer than thirty nodes and no zero draw: exactly the first matches in key order. */
  lemma {:induction false} FewNodesAnswer(vs: seq<NodeView>, q: Query, n: nat, draws: Draws, peers: seq<PeerInfo>)
    requires |vs| < GROUP && NoZeroDraw(draws)
    ensures IsAnswer(vs, q, n, draws, peers) <==> peers == Take(Matching(vs, q), n)
  {
    OnlyGroup(draws);
    CourseWithin(vs, draws);
    OnlyFirstGroup(vs, q, n, CourseOf(vs, draws));
    EndsIff(vs, q, n, draws);
  }

  /**
   The exact condition for an empty answer, whoever matches elsewhere: none was asked for, or the
   rounds up to the first one that settles on no group settle on groups from which on nobody matches.
   */
  lemma EmptyAnswerIff(vs: seq<NodeView>, q: Query, n: nat, draws: Draws)
    ensures IsAnswer(vs, q, n, draws, []) <==> n == 0 || exists m :: FindsNobody(vs, q, CourseOf(vs, draws), m)
  {
    CourseWithin(vs, draws);
    if n == 0 {
      var m := SearchStops(vs, q, n, draws);
      assert Take(Offer(vs, q, CourseOf(vs, draws), m), 0) == [];
    } else {
      EmptyIff(vs, q, n, CourseOf(vs, draws));
    }
  }

  /** If the last draw of the first round names a group that the round named before, nobody is found. */
  lemma RepeatedDrawFindsNobody(vs: seq<NodeView>, q: Query, n: nat, draws: Draws, d: nat, f: nat)
    requires d < f && LastDraw(Groups(vs), draws, 0, f)
    requires Names(Groups(vs), draws, 0, d, Residue(draws(0, f), Groups(vs)))
    ensures IsAnswer(vs, q, n, draws, [])
  {
    CourseWithin(vs, draws);
    LastDrawDecides(Groups(vs), draws, 0, f);
    assert Stops(vs, q, n, CourseOf(vs, draws), 0);
  }

  /** Every draw is the same. */
  function AllOnes(): Draws {
    (r, f) => 1
  }

  /** Thirty nodes that all match, two equal draws, and no answer. */
  lemma ThirtyMatchesNoAnswer(vs: seq<NodeView>, q: Query, n: nat)
    requires |vs| == GROUP && forall i :: 0 <= i < |vs| ==> Matches(vs[i], q)
    ensures Matching(vs, q) != [] && IsAnswer(vs, q, n, AllOnes(), [])
  {
    assert Matches(vs[|vs| - 1], q);
    RepeatedDrawFindsNobody(vs, q, n, AllOnes(), 0, 1);
  }
}
