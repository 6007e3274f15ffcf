/**
 The search of `get_np_address` for peers, given which group of the peer map each of its rounds
 settles on: what it finds, when it ends, and when it finds nobody.
 */
module GroupSearch {
  import opened Words
  import opened Runs
  import opened NpManagers

  const GROUP: nat := 30

  /** What is asked for: peers of one channel, other than the asking one, that have a block. */
  datatype Query = Query(channel: Hash, asking: Uuid, block: u32)

  predicate Matches(v: NodeView, q: Query) {
    v.channel == q.channel && v.digits != q.asking && Finds(v.runs, q.block)
  }

  /** The matching peers of a list of nodes, in its order. */
  function Matching(vs: seq<NodeView>, q: Query): seq<PeerInfo> {
    if vs == [] then []
    else Matching(vs[..|vs| - 1], q) + if Matches(vs[|vs| - 1], q) then [vs[|vs| - 1].info] else []
  }

  function Take(s: seq<PeerInfo>, n: nat): seq<PeerInfo> {
    if |s| <= n then s else s[..n]
  }

  predicate GroupStarts(groups: seq<nat>, n: nat) {
    forall i :: 0 <= i < |groups| ==> groups[i] * GROUP <= n
  }

  /** A group is scanned from its first node to the end of the map. */
  function Scans(vs: seq<NodeView>, groups: seq<nat>, q: Query): seq<PeerInfo>
    requires GroupStarts(groups, |vs|)
  {
    if groups == [] then []
    else Scans(vs, groups[..|groups| - 1], q) + Matching(vs[groups[|groups| - 1] * GROUP..], q)
  }

  // ---------------------------------------------------------------- matches of parts of the map

  lemma MatchingStep(vs: seq<NodeView>, from: nat, it: nat, q: Query)
    requires from <= it < |vs|
    ensures Matching(vs[from..it + 1], q) ==
            Matching(vs[from..it], q) + if Matches(vs[it], q) then [vs[it].info] else []
  {
    assert vs[from..it + 1][..it - from] == vs[from..it];
  }

  lemma {:induction false} MatchingPrefix(vs: seq<NodeView>, k: nat, q: Query)
    requires k <= |vs|
    ensures Matching(vs[..k], q) <= Matching(vs, q)
    decreases |vs| - k
  {
    if k == |vs| {
      assert vs[..k] == vs;
    } else {
      MatchingPrefix(vs, k + 1, q);
      MatchingStep(vs, 0, k, q);
    }
  }

  lemma SliceOfRest(vs: seq<NodeView>, from: nat, it: nat)
    requires from <= it <= |vs|
    ensures vs[from..it] == vs[from..][..it - from]
    ensures it == |vs| ==> vs[from..it] == vs[from..]
  {
  }

  /** What a scan leaves in the result is what the visited groups offer, cut to the number asked for. */
  lemma ScanTakes(vs: seq<NodeView>, visited: seq<nat>, g: nat, it: nat, q: Query, n: nat,
                  was: seq<PeerInfo>, now: seq<PeerInfo>)
    requires GroupStarts(visited, |vs|) && g * GROUP <= it <= |vs|
    requires was == Take(Scans(vs, visited, q), n) && (|was| < n || n == 0)
    requires now == was + Matching(vs[g * GROUP..it], q) && |now| <= n
    requires it < |vs| ==> |now| == n
    ensures GroupStarts(visited + [g], |vs|)
    ensures now == Take(Scans(vs, visited + [g], q), n)
  {
    var from := g * GROUP;
    assert (visited + [g])[..|visited|] == visited;
    SliceOfRest(vs, from, it);
    MatchingPrefix(vs[from..], it - from, q);
  }

  lemma {:induction false} MatchingSplit(vs: seq<NodeView>, k: nat, q: Query)
    requires k <= |vs|
    ensures Matching(vs, q) == Matching(vs[..k], q) + Matching(vs[k..], q)
  {
    if k == |vs| {
      assert vs[..k] == vs && vs[k..] == [];
    } else {
      var init := vs[..|vs| - 1];
      MatchingSplit(init, k, q);
      assert init[..k] == vs[..k] && vs[k..][..|vs| - k - 1] == init[k..];
    }
  }

  lemma NoMatchInRest(vs: seq<NodeView>, k: nat, q: Query)
    requires k <= |vs| && Matching(vs, q) == []
    ensures Matching(vs[k..], q) == []
  {
    MatchingSplit(vs, k, q);
  }

  // ---------------------------------------------------------------- who is offered

  ghost predicate Offered(vs: seq<NodeView>, q: Query, p: PeerInfo) {
    exists j :: 0 <= j < |vs| && Matches(vs[j], q) && p == vs[j].info
  }

  lemma {:induction false} MatchingOffers(vs: seq<NodeView>, q: Query, p: PeerInfo)
    ensures p in Matching(vs, q) <==> Offered(vs, q, p)
  {
    if vs != [] {
      var n := |vs| - 1;
      MatchingOffers(vs[..n], q, p);
      if j :| 0 <= j < |vs| && Matches(vs[j], q) && p == vs[j].info {
        assert j < n ==> vs[..n][j] == vs[j];
      }
      if j :| 0 <= j < n && Matches(vs[..n][j], q) && p == vs[..n][j].info {
        assert Matches(vs[j], q) && p == vs[j].info;
      }
    }
  }

  /** Only matching peers are offered, whichever groups were visited; all of them once group 0 was. */
  lemma {:induction false} ScansOffer(vs: seq<NodeView>, groups: seq<nat>, q: Query, p: PeerInfo)
    requires GroupStarts(groups, |vs|)
    ensures p in Scans(vs, groups, q) ==> Offered(vs, q, p)
    ensures 0 in groups && Offered(vs, q, p) ==> p in Scans(vs, groups, q)
  {
    if groups != [] {
      var n := |groups| - 1;
      var from := groups[n] * GROUP;
      ScansOffer(vs, groups[..n], q, p);
      MatchingOffers(vs[from..], q, p);
      if j :| 0 <= j < |vs[from..]| && Matches(vs[from..][j], q) && p == vs[from..][j].info {
        assert Matches(vs[from + j], q) && p == vs[from + j].info;
      }
      if groups[n] == 0 {
        assert vs[0..] == vs;
      } else if 0 in groups {
        assert groups == groups[..n] + [groups[n]];
      }
    }
  }

  /** From the starts of these groups on nobody matches. */
  predicate NobodyIn(vs: seq<NodeView>, q: Query, groups: seq<nat>)
    requires GroupStarts(groups, |vs|)
  {
    forall i :: 0 <= i < |groups| ==> Matching(vs[groups[i] * GROUP..], q) == []
  }

  /** Nothing is offered exactly if nobody behind the start of a visited group matches. */
  lemma {:induction false} ScansEmptyIff(vs: seq<NodeView>, groups: seq<nat>, q: Query)
    requires GroupStarts(groups, |vs|)
    ensures Scans(vs, groups, q) == [] <==> NobodyIn(vs, q, groups)
  {
    if groups != [] {
      ScansEmptyIff(vs, groups[..|groups| - 1], q);
    }
  }

  // ---------------------------------------------------------------- the search

  /** The group that each round settles on; below 0 if it settles on none. */
  type Course = nat -> int

  /** The map is split into groups of thirty; the last one may be empty. */
  function Groups(vs: seq<NodeView>): nat {
    |vs| / GROUP + 1
  }

  ghost predicate Within(vs: seq<NodeView>, course: Course) {
    forall k: nat :: course(k) < Groups(vs)
  }

  /** Rounds 0 to m - 1 settle on a group each. */
  ghost predicate Going(course: Course, m: nat) {
    forall k: nat :: k < m ==> 0 <= course(k)
  }

  /** The groups that the first m rounds settle on. */
  ghost function Visits(course: Course, m: nat): (gs: seq<nat>)
    requires Going(course, m)
    ensures |gs| == m && forall k: nat :: k < m ==> gs[k] == course(k)
  {
    if m == 0 then [] else Visits(course, m - 1) + [course(m - 1)]
  }

  lemma VisitsStart(vs: seq<NodeView>, course: Course, m: nat)
    requires Within(vs, course) && Going(course, m)
    ensures GroupStarts(Visits(course, m), |vs|)
  {
  }

  /** What the groups of the first m rounds offer. */
  ghost function Offer(vs: seq<NodeView>, q: Query, course: Course, m: nat): seq<PeerInfo>
    requires Within(vs, course) && Going(course, m)
  {
    VisitsStart(vs, course, m);
    Scans(vs, Visits(course, m), q)
  }

  lemma OfferStep(vs: seq<NodeView>, q: Query, course: Course, m: nat)
    requires Within(vs, course) && Going(course, m + 1)
    ensures course(m) * GROUP <= |vs|
    ensures Offer(vs, q, course, m + 1) == Offer(vs, q, course, m) + Matching(vs[course(m) * GROUP..], q)
  {
    VisitsStart(vs, course, m + 1);
    assert Visits(course, m + 1)[..m] == Visits(course, m);
  }

  /** Up to round m the search has neither run out of groups nor found enough. */
  ghost predicate Searching(vs: seq<NodeView>, q: Query, n: nat, course: Course, m: nat) {
    && Within(vs, course) && Going(course, m)
    && forall k: nat :: 0 < k <= m ==> |Offer(vs, q, course, k)| < n
  }

  /** The search ends after m groups: round m settles on no group, or there are enough peers. */
  ghost predicate Stops(vs: seq<NodeView>, q: Query, n: nat, course: Course, m: nat) {
    && Within(vs, course) && Going(course, m)
    && (0 < m ==> Searching(vs, q, n, course, m - 1))
    && (course(m) < 0 || (0 < m && n <= |Offer(vs, q, course, m)|))
  }

  /** The peers that the search ends with. */
  ghost predicate EndsWith(vs: seq<NodeView>, q: Query, n: nat, course: Course, peers: seq<PeerInfo>) {
    exists m :: Stops(vs, q, n, course, m) && peers == Take(Offer(vs, q, course, m), n)
  }

  lemma StopsOnce(vs: seq<NodeView>, q: Query, n: nat, course: Course, m: nat, k: nat)
    requires Stops(vs, q, n, course, m) && Stops(vs, q, n, course, k)
    ensures m == k
  {
  }

  lemma EndsWithOnce(vs: seq<NodeView>, q: Query, n: nat, course: Course, a: seq<PeerInfo>, b: seq<PeerInfo>)
    requires EndsWith(vs, q, n, course, a) && EndsWith(vs, q, n, course, b)
    ensures a == b
  {
    var m :| Stops(vs, q, n, course, m) && a == Take(Offer(vs, q, course, m), n);
    var k :| Stops(vs, q, n, course, k) && b == Take(Offer(vs, q, course, k), n);
    StopsOnce(vs, q, n, course, m, k);
  }

  lemma EndsWithOffered(vs: seq<NodeView>, q: Query, n: nat, course: Course, peers: seq<PeerInfo>)
    requires EndsWith(vs, q, n, course, peers)
    ensures |peers| <= n && forall p :: p in peers ==> Offered(vs, q, p)
  {
    var m :| Stops(vs, q, n, course, m) && peers == Take(Offer(vs, q, course, m), n);
    VisitsStart(vs, course, m);
    forall p | p in peers
      ensures Offered(vs, q, p)
    {
      ScansOffer(vs, Visits(course, m), q, p);
    }
  }

  // ---------------------------------------------------------------- one round after another

  /** What a round leaves: the result so far, and whether it was the last round. */
  ghost predicate RoundResult(vs: seq<NodeView>, q: Query, n: nat, course: Course, round: nat, was: seq<PeerInfo>,
                              done: bool, peers: seq<PeerInfo>)
  {
    if course(round) < 0 then
      done && peers == was
    else
      && Within(vs, course) && Going(course, round + 1)
      && peers == Take(Offer(vs, q, course, round + 1), n)
      && (done <==> n <= |Offer(vs, q, course, round + 1)|)
  }

  lemma ScanIsRoundResult(vs: seq<NodeView>, q: Query, n: nat, course: Course, round: nat, was: seq<PeerInfo>,
                          pos: nat, done: bool, peers: seq<PeerInfo>)
    requires Within(vs, course) && Going(course, round) && pos == course(round)
    requires GroupStarts(Visits(course, round) + [pos], |vs|)
    requires peers == Take(Scans(vs, Visits(course, round) + [pos], q), n) && (done <==> n <= |peers|)
    ensures RoundResult(vs, q, n, course, round, was, done, peers)
  {
  }

  lemma StillRoom(vs: seq<NodeView>, q: Query, n: nat, course: Course, round: nat)
    requires Searching(vs, q, n, course, round)
    ensures |Take(Offer(vs, q, course, round), n)| < n || n == 0
  {
  }

  /** The search has come to this round, with these peers so far, and will stop in a later one or this. */
  ghost predicate Underway(vs: seq<NodeView>, q: Query, n: nat, course: Course, round: nat, last: nat,
                           peers: seq<PeerInfo>)
  {
    && Searching(vs, q, n, course, round) && peers == Take(Offer(vs, q, course, round), n)
    && Stops(vs, q, n, course, last) && round <= last
  }

  lemma RoundDecides(vs: seq<NodeView>, q: Query, n: nat, course: Course, round: nat, last: nat, was: seq<PeerInfo>,
                     done: bool, peers: seq<PeerInfo>)
    requires Searching(vs, q, n, course, round) && was == Take(Offer(vs, q, course, round), n)
    requires Stops(vs, q, n, course, last) && round <= last
    requires RoundResult(vs, q, n, course, round, was, done, peers)
    ensures done ==> EndsWith(vs, q, n, course, peers)
    ensures !done ==> round < last && Searching(vs, q, n, course, round + 1)
    ensures !done ==> peers == Take(Offer(vs, q, course, round + 1), n)
  {
    if course(round) < 0 {
      assert Stops(vs, q, n, course, round);
    } else if done {
      assert Stops(vs, q, n, course, round + 1);
    }
  }

  // ---------------------------------------------------------------- when the search ends

  /** Every round that settles on a group uses something up, except that the first group may come again. */
  ghost predicate UsesUp(course: Course, left: nat -> nat) {
    forall k: nat :: 0 <= course(k) ==> left(k + 1) < left(k) || (left(k + 1) == left(k) && course(k) == 0)
  }

  lemma RoundOffers(vs: seq<NodeView>, q: Query, course: Course, k: nat)
    requires Within(vs, course) && Going(course, k + 1)
    ensures |Offer(vs, q, course, k)| <= |Offer(vs, q, course, k + 1)|
    ensures course(k) == 0 ==> |Offer(vs, q, course, k + 1)| == |Offer(vs, q, course, k)| + |Matching(vs, q)|
  {
    OfferStep(vs, q, course, k);
    assert vs[0..] == vs;
  }

  lemma {:induction false} SearchOn(vs: seq<NodeView>, q: Query, n: nat, course: Course, left: nat -> nat, k: nat)
    returns (m: nat)
    requires UsesUp(course, left) && Matching(vs, q) != []
    requires Searching(vs, q, n, course, k) && |Offer(vs, q, course, k)| < n
    ensures Stops(vs, q, n, course, m)
    ensures m <= k + left(k) + n - |Offer(vs, q, course, k)|
    decreases left(k) + n - |Offer(vs, q, course, k)|
  {
    m := k;
    if 0 <= course(k) {
      RoundOffers(vs, q, course, k);
      m := k + 1;
      if |Offer(vs, q, course, k + 1)| < n {
        m := SearchOn(vs, q, n, course, left, k + 1);
      }
    }
  }

  lemma {:induction false} FirstWithoutGroup(course: Course, k: nat, last: nat) returns (m: nat)
    requires Going(course, k) && k <= last && course(last) < 0
    ensures Going(course, m) && course(m) < 0
    decreases last - k
  {
    m := k;
    if 0 <= course(k) {
      m := FirstWithoutGroup(course, k + 1, last);
    }
  }

  lemma NoMatchNoOffer(vs: seq<NodeView>, q: Query, course: Course, m: nat)
    requires Within(vs, course) && Going(course, m) && Matching(vs, q) == []
    ensures Offer(vs, q, course, m) == []
  {
    VisitsStart(vs, course, m);
    var gs := Visits(course, m);
    forall i | 0 <= i < |gs|
      ensures Matching(vs[gs[i] * GROUP..], q) == []
    {
      NoMatchInRest(vs, gs[i] * GROUP, q);
    }
    ScansEmptyIff(vs, gs, q);
  }

  /** Nothing is asked for, somebody matches, or some round settles on no group. */
  ghost predicate CanEnd(vs: seq<NodeView>, q: Query, n: nat, course: Course) {
    n == 0 || Matching(vs, q) != [] || exists k: nat :: course(k) < 0
  }

  lemma SearchEnds(vs: seq<NodeView>, q: Query, n: nat, course: Course, left: nat -> nat) returns (m: nat)
    requires Within(vs, course) && UsesUp(course, left) && CanEnd(vs, q, n, course)
    ensures Stops(vs, q, n, course, m)
    ensures Matching(vs, q) != [] ==> m <= left(0) + n + 1
  {
    assert Offer(vs, q, course, 0) == [];
    if n == 0 {
      m := if course(0) < 0 then 0 else 1;
    } else if Matching(vs, q) != [] {
      m := SearchOn(vs, q, n, course, left, 0);
    } else {
      var last: nat :| course(last) < 0;
      m := FirstWithoutGroup(course, 0, last);
      forall k: nat | k <= m
        ensures Offer(vs, q, course, k) == []
      {
        NoMatchNoOffer(vs, q, course, k);
      }
    }
  }

  lemma StopsCanEnd(vs: seq<NodeView>, q: Query, n: nat, course: Course, m: nat)
    requires Stops(vs, q, n, course, m)
    ensures CanEnd(vs, q, n, course)
  {
    if Matching(vs, q) == [] {
      NoMatchNoOffer(vs, q, course, m);
    }
  }

  // ---------------------------------------------------------------- when nobody is found

  /** Round m is the first to settle on no group, and from none of the groups before on does anybody match. */
  ghost predicate FindsNobody(vs: seq<NodeView>, q: Query, course: Course, m: nat) {
    && course(m) < 0 && Going(course, m)
    && GroupStarts(Visits(course, m), |vs|) && NobodyIn(vs, q, Visits(course, m))
  }

  lemma NobodyEarlier(vs: seq<NodeView>, q: Query, course: Course, m: nat, k: nat)
    requires Within(vs, course) && FindsNobody(vs, q, course, m) && k <= m
    ensures Offer(vs, q, course, k) == []
  {
    VisitsStart(vs, course, k);
    var gs, all := Visits(course, k), Visits(course, m);
    assert forall i :: 0 <= i < k ==> gs[i] == all[i];
    ScansEmptyIff(vs, gs, q);
  }

  lemma NobodyStops(vs: seq<NodeView>, q: Query, n: nat, course: Course, m: nat)
    requires Within(vs, course) && FindsNobody(vs, q, course, m) && 0 < n
    ensures EndsWith(vs, q, n, course, [])
  {
    forall k: nat | k <= m
      ensures Offer(vs, q, course, k) == []
    {
      NobodyEarlier(vs, q, course, m, k);
    }
    assert Stops(vs, q, n, course, m);
  }

  lemma EmptyFindsNobody(vs: seq<NodeView>, q: Query, n: nat, course: Course) returns (m: nat)
    requires EndsWith(vs, q, n, course, []) && 0 < n
    ensures FindsNobody(vs, q, course, m)
  {
    m :| Stops(vs, q, n, course, m) && [] == Take(Offer(vs, q, course, m), n);
    VisitsStart(vs, course, m);
    ScansEmptyIff(vs, Visits(course, m), q);
  }

  /**
   The exact condition for an empty result, whoever matches elsewhere: the rounds up to the first
   one that settles on no group settle on groups from which on nobody matches.
   */
  lemma EmptyIff(vs: seq<NodeView>, q: Query, n: nat, course: Course)
    requires Within(vs, course) && 0 < n
    ensures EndsWith(vs, q, n, course, []) <==> exists m :: FindsNobody(vs, q, course, m)
  {
    if EndsWith(vs, q, n, course, []) {
      var m := EmptyFindsNobody(vs, q, n, course);
    }
    if m :| FindsNobody(vs, q, course, m) {
      NobodyStops(vs, q, n, course, m);
    }
  }

  /** If only the first group is visited, the first matches in key order are found. */
  lemma OnlyFirstGroup(vs: seq<NodeView>, q: Query, n: nat, course: Course)
    requires Within(vs, course) && course(0) == 0 && course(1) < 0
    ensures EndsWith(vs, q, n, course, Take(Matching(vs, q), n))
  {
    OfferStep(vs, q, course, 0);
    assert vs[0..] == vs;
    assert Stops(vs, q, n, course, 1);
  }
}
