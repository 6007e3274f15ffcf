/** When `get_np_address` returns a peer twice. */
module PeerRepeats {
  import opened Words
  import opened Runs
  import opened NpManagers
  import opened GroupDraws
  import opened GroupSearch
  import opened FoundLists
  import opened PeerSelection

  /** The matches from the start of a group on. */
  function MatchesFrom(vs: seq<NodeView>, q: Query, group: nat): seq<PeerInfo>
    requires group * GROUP <= |vs|
  {
    Matching(vs[group * GROUP..], q)
  }

  /** The matches between the starts of two groups. */
  function MatchesBetween(vs: seq<NodeView>, q: Query, group: nat, later: nat): seq<PeerInfo>
    requires group <= later && later * GROUP <= |vs|
  {
    Matching(vs[group * GROUP..later * GROUP], q)
  }

  lemma MatchesFromEarlier(vs: seq<NodeView>, q: Query, group: nat, later: nat)
    requires group <= later && later * GROUP <= |vs|
    ensures MatchesFrom(vs, q, group) == MatchesBetween(vs, q, group, later) + MatchesFrom(vs, q, later)
  {
    var rest, k := vs[group * GROUP..], (later - group) * GROUP;
    MatchingSplit(rest, k, q);
    assert rest[..k] == vs[group * GROUP..later * GROUP] && rest[k..] == vs[later * GROUP..];
  }

  lemma NoRepeatsFrom(vs: seq<NodeView>, q: Query, group: nat)
    requires group * GROUP <= |vs| && NoRepeats(Matching(vs, q))
    ensures NoRepeats(MatchesFrom(vs, q, group))
  {
    MatchesFromEarlier(vs, q, 0, group);
    assert vs[0..] == vs;
    var all, front := MatchesFrom(vs, q, 0), MatchesBetween(vs, q, 0, group);
    assert forall i :: 0 <= i < |MatchesFrom(vs, q, group)| ==> MatchesFrom(vs, q, group)[i] == all[|front| + i];
  }

  /** What the group of a round offers. */
  ghost function RoundOffer(vs: seq<NodeView>, q: Query, course: Course, k: nat): seq<PeerInfo>
    requires Within(vs, course) && 0 <= course(k)
  {
    MatchesFrom(vs, q, course(k))
  }

  /** What every round offers. */
  ghost function OfferOf(vs: seq<NodeView>, q: Query, course: Course): Parts
    requires Within(vs, course)
  {
    (k: nat) => if 0 <= course(k) && course(k) * GROUP <= |vs| then Matching(vs[course(k) * GROUP..], q) else []
  }

  lemma {:induction false} OfferIsJoined(vs: seq<NodeView>, q: Query, course: Course, m: nat)
    requires Within(vs, course) && Going(course, m)
    ensures Offer(vs, q, course, m) == Joined(OfferOf(vs, q, course), m)
  {
    if 0 < m {
      OfferStep(vs, q, course, m - 1);
      OfferIsJoined(vs, q, course, m - 1);
    }
  }

  lemma OfferIsPart(vs: seq<NodeView>, q: Query, course: Course, k: nat)
    requires Within(vs, course) && 0 <= course(k)
    ensures OfferOf(vs, q, course)(k) == RoundOffer(vs, q, course, k)
  {
  }

  /** Two rounds whose groups both offer peers, and so the same last one. */
  ghost predicate BothOffer(vs: seq<NodeView>, q: Query, course: Course, i: nat, j: nat)
    requires Within(vs, course)
  {
    && i < j && 0 <= course(i) && 0 <= course(j)
    && RoundOffer(vs, q, course, i) != [] && RoundOffer(vs, q, course, j) != []
  }

  /** The result is full before the later round j comes to the group of round i. */
  ghost predicate FullBefore(vs: seq<NodeView>, q: Query, n: nat, course: Course, i: nat, j: nat)
    requires Within(vs, course) && Going(course, j + 1) && i <= j
  {
    && course(j) < course(i)
    && n <= |Offer(vs, q, course, j)| + |MatchesBetween(vs, q, course(j), course(i))|
  }

  /** Any two rounds that offer peers are like that. */
  ghost predicate AllCut(vs: seq<NodeView>, q: Query, n: nat, course: Course, m: nat)
    requires Within(vs, course) && Going(course, m)
  {
    forall i: nat, j: nat :: j < m && BothOffer(vs, q, course, i, j) ==> FullBefore(vs, q, n, course, i, j)
  }

  /** A peer that both rounds offer is in the result twice, unless that is full before. */
  lemma {:induction false} FoundTwice(vs: seq<NodeView>, q: Query, n: nat, course: Course, i: nat, j: nat, m: nat)
    requires Within(vs, course) && Going(course, m) && j < m && BothOffer(vs, q, course, i, j)
    requires |Offer(vs, q, course, j)| < n && !FullBefore(vs, q, n, course, i, j)
    ensures !NoRepeats(Take(Offer(vs, q, course, m), n))
  {
    var gi: nat, gj: nat := course(i), course(j);
    var part := OfferOf(vs, q, course);
    OfferIsJoined(vs, q, course, j);
    OfferIsJoined(vs, q, course, m);
    OfferIsPart(vs, q, course, i);
    OfferIsPart(vs, q, course, j);
    if gi <= gj {
      MatchesFromEarlier(vs, q, gi, gj);
      HeldTwice(part, i, j, |MatchesBetween(vs, q, gi, gj)|, 0, n, m);
    } else {
      MatchesFromEarlier(vs, q, gj, gi);
      HeldTwice(part, i, j, 0, |MatchesBetween(vs, q, gj, gi)|, n, m);
    }
  }

  /**
   If all matching peers differ, the result names nobody twice if and only if no two rounds offer
   peers, or the later one fills the result before it comes to the group of the earlier one.
   */
  lemma {:induction false} NobodyTwiceIff(vs: seq<NodeView>, q: Query, n: nat, course: Course, m: nat)
    requires Stops(vs, q, n, course, m) && NoRepeats(Matching(vs, q))
    ensures NoRepeats(Take(Offer(vs, q, course, m), n)) <==> AllCut(vs, q, n, course, m)
  {
    if AllCut(vs, q, n, course, m) {
      CutNobodyTwice(vs, q, n, course, m);
    } else {
      var i: nat, j: nat :| j < m && BothOffer(vs, q, course, i, j) && !FullBefore(vs, q, n, course, i, j);
      FoundTwice(vs, q, n, course, i, j, m);
    }
  }

  /** What lies between the groups of two rounds. */
  ghost function FrontOf(vs: seq<NodeView>, q: Query, course: Course): (nat, nat) -> seq<PeerInfo> {
    (i: nat, j: nat) =>
      if 0 <= course(j) <= course(i) && course(i) * GROUP <= |vs| then
        Matching(vs[course(j) * GROUP..course(i) * GROUP], q)
      else
        []
  }

  lemma {:induction false} FullIsCut(vs: seq<NodeView>, q: Query, n: nat, course: Course, i: nat, j: nat, m: nat)
    requires Within(vs, course) && Going(course, m) && j < m && AllCut(vs, q, n, course, m)
    requires Both(OfferOf(vs, q, course), i, j)
    ensures Cut(OfferOf(vs, q, course), n, i, j, FrontOf(vs, q, course)(i, j))
  {
    OfferIsPart(vs, q, course, i);
    OfferIsPart(vs, q, course, j);
    assert BothOffer(vs, q, course, i, j) && FullBefore(vs, q, n, course, i, j);
    MatchesFromEarlier(vs, q, course(j), course(i));
    OfferIsJoined(vs, q, course, j);
  }

  lemma CutNobodyTwice(vs: seq<NodeView>, q: Query, n: nat, course: Course, m: nat)
    requires Stops(vs, q, n, course, m) && NoRepeats(Matching(vs, q)) && AllCut(vs, q, n, course, m)
    ensures NoRepeats(Take(Offer(vs, q, course, m), n))
  {
    var part, front := OfferOf(vs, q, course), FrontOf(vs, q, course);
    forall k: nat | k < m
      ensures NoRepeats(part(k))
    {
      OfferIsPart(vs, q, course, k);
      NoRepeatsFrom(vs, q, course(k));
    }
    forall k: nat | 0 < k < m
      ensures |Joined(part, k)| < n
    {
      OfferIsJoined(vs, q, course, k);
    }
    forall i: nat, j: nat | j < m && Both(part, i, j)
      ensures Cut(part, n, i, j, front(i, j))
    {
      FullIsCut(vs, q, n, course, i, j, m);
    }
    CutNamesNobodyTwice(part, front, n, m);
    OfferIsJoined(vs, q, course, m);
  }

  // ---------------------------------------------------------------- runs that return a peer twice

  /**
   The limit of thirty nodes per group has no effect, as its counter never moves: a group is read
   to the end of the map, and what it offered is offered again if the first group comes after it. If
   there is room left, the first peer that was offered is then found twice.
   */
  lemma EarlierGroupRepeats(vs: seq<NodeView>, q: Query, n: nat, course: Course, g: nat)
    requires Within(vs, course) && course(0) == g && course(1) == 0 && course(2) < 0
    requires g * GROUP <= |vs| && |MatchesFrom(vs, q, g)| < n
    ensures var late, early := MatchesFrom(vs, q, g), MatchesBetween(vs, q, 0, g);
            var found := Take(late + (early + late), n);
            && EndsWith(vs, q, n, course, found)
            && (late != [] && |late| + |early| < n ==> found[0] == found[|late| + |early|] && !NoRepeats(found))
  {
    var late, early := MatchesFrom(vs, q, g), MatchesBetween(vs, q, 0, g);
    EarlierGroupOffers(vs, q, n, course, g);
    if late != [] && |late| + |early| < n {
      TwiceAt(Take(late + (early + late), n), late + (early + late), n, 0, |late| + |early|);
    }
  }

  lemma TwoOffers(vs: seq<NodeView>, q: Query, course: Course, g: nat)
    requires Within(vs, course) && course(0) == g && course(1) == 0 && g * GROUP <= |vs|
    ensures Going(course, 2) && Offer(vs, q, course, 1) == MatchesFrom(vs, q, g)
    ensures var late, early := MatchesFrom(vs, q, g), MatchesBetween(vs, q, 0, g);
            Offer(vs, q, course, 2) == late + (early + late)
  {
    OfferStep(vs, q, course, 0);
    OfferStep(vs, q, course, 1);
    MatchesFromEarlier(vs, q, 0, g);
  }

  lemma EarlierGroupOffers(vs: seq<NodeView>, q: Query, n: nat, course: Course, g: nat)
    requires Within(vs, course) && course(0) == g && course(1) == 0 && course(2) < 0
    requires g * GROUP <= |vs| && |MatchesFrom(vs, q, g)| < n
    ensures var late, early := MatchesFrom(vs, q, g), MatchesBetween(vs, q, 0, g);
            EndsWith(vs, q, n, course, Take(late + (early + late), n))
  {
    TwoOffers(vs, q, course, g);
    assert Stops(vs, q, n, course, 2);
  }

  /**
   If all matching peers differ, an answer names nobody twice if and only if, of any two rounds that
   found peers, the later one filled the answer before it came to the group of the earlier one.
   */
  lemma AnswerNamesNobodyTwiceIff(vs: seq<NodeView>, q: Query, n: nat, draws: Draws, m: nat, peers: seq<PeerInfo>)
    requires NoRepeats(Matching(vs, q)) && IsAnswer(vs, q, n, draws, peers) && Stops(vs, q, n, CourseOf(vs, draws), m)
    ensures NoRepeats(peers) <==> AllCut(vs, q, n, CourseOf(vs, draws), m)
  {
    var course := CourseOf(vs, draws);
    EndsWithOnce(vs, q, n, course, peers, Take(Offer(vs, q, course, m), n));
    NobodyTwiceIff(vs, q, n, course, m);
  }

  /**
   A run that settles on a later group first and then on the first one: since the limit of thirty
   nodes per group has no effect, it returns a later peer twice if there is room.
   */
  lemma LatePeersTwice(vs: seq<NodeView>, q: Query, n: nat, g: nat)
    requires 0 < g && g * GROUP <= |vs|
    requires MatchesFrom(vs, q, g) != [] && |MatchesFrom(vs, q, g)| + |MatchesBetween(vs, q, 0, g)| < n
    ensures var late, early := MatchesFrom(vs, q, g), MatchesBetween(vs, q, 0, g);
            var answer := Take(late + (early + late), n);
            && IsAnswer(vs, q, n, Backwards(g, Groups(vs)), answer)
            && answer[0] == answer[|late| + |early|] && !NoRepeats(answer)
  {
    var draws := Backwards(g, Groups(vs));
    CourseWithin(vs, draws);
    BackwardsVisits(g, Groups(vs));
    EarlierGroupRepeats(vs, q, n, CourseOf(vs, draws), g);
  }
}
