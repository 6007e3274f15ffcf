/** Peer maps that the tracker can hold, and draws on which its answer is not what one would expect. */
module PeerExamples {
  import opened Words
  import opened Runs
  import opened RunInsertion
  import opened NpManagers
  import opened GroupDraws
  import opened GroupSearch
  import opened PeerSelection
  import opened PeerRepeats
  import opened NpTrackers

  /** The uuids below n, in order. */
  function Uuids(n: nat): (keys: seq<Uuid>)
    ensures |keys| == n && (forall i :: 0 <= i < n ==> keys[i] == i) && forall u: Uuid :: u in keys <==> u < n
  {
    if n == 0 then [] else Uuids(n - 1) + [n - 1]
  }

  /** The peer of uuid u, of one channel, which has reported the block or nothing. */
  function PeerOf(u: u8, channel: Hash, block: u32, has: bool): Record {
    Record(channel, PeerInfo([u], []), if has then [BlockInterval(block, 1)] else [])
  }

  /** The peers below n of one channel; those from `from` on have reported the block. */
  function Crowd(n: nat, from: nat, channel: Hash, block: u32): (records: map<Uuid, Record>)
    requires n <= 0xff
    ensures forall u: Uuid :: u in records <==> u < n
    ensures forall u: u8 :: u < n ==> records[u] == PeerOf(u, channel, block, from <= u)
  {
    if n == 0 then map[] else Crowd(n - 1, from, channel, block)[n - 1 := PeerOf(n - 1, channel, block, from <= n - 1)]
  }

  lemma HasReportedMatches(u: u8, channel: Hash, block: u32, has: bool, asking: Uuid)
    requires block < UINT_MAX && u != asking
    ensures Matches(NodeOf(u, PeerOf(u, channel, block, has)), Query(channel, asking, block)) <==> has
  {
    if has {
      var b := BlockInterval(block, 1);
      assert [b][..0] == [];
      assert AddAll([], [b]) == AddFrom([], 0, block, 1) == [b];
      assert FindsFrom([b], 0, block);
    }
  }

  lemma {:induction false} NoneMatches(vs: seq<NodeView>, q: Query)
    requires forall i :: 0 <= i < |vs| ==> !Matches(vs[i], q)
    ensures Matching(vs, q) == []
  {
    if vs != [] {
      NoneMatches(vs[..|vs| - 1], q);
    }
  }

  /** Exactly the nodes from `from` on match. */
  ghost predicate MatchFrom(vs: seq<NodeView>, q: Query, from: nat) {
    forall i :: 0 <= i < |vs| ==> (Matches(vs[i], q) <==> from <= i)
  }

  /** The records are those of a tracker that holds its peers in this order. */
  ghost predicate Holdable(keys: seq<Uuid>, records: map<Uuid, Record>) {
    StrictlyAscending(keys) && forall u :: u in keys <==> u in records
  }

  lemma CrowdMatches(n: nat, from: nat, channel: Hash, block: u32, asking: Uuid)
    requires n <= 0xff && n <= asking && block < UINT_MAX
    ensures var keys, records := Uuids(n), Crowd(n, from, channel, block);
            && Holdable(keys, records)
            && MatchFrom(Listing(keys, records), Query(channel, asking, block), from)
            && (from < n ==> Listing(keys, records)[from].info == PeerInfo([from], []))
  {
    var vs, q := Listing(Uuids(n), Crowd(n, from, channel, block)), Query(channel, asking, block);
    forall i | 0 <= i < n
      ensures Matches(vs[i], q) <==> from <= i
    {
      HasReportedMatches(i, channel, block, from <= i, asking);
    }
  }

  lemma ThirtyOfCrowd(vs: seq<NodeView>, q: Query)
    requires |vs| == GROUP && MatchFrom(vs, q, 0)
    ensures Matching(vs, q) != [] && IsAnswer(vs, q, PEERS_ASKED, AllOnes(), [])
  {
    ThirtyMatchesNoAnswer(vs, q, PEERS_ASKED);
  }

  /** Thirty recorded peers that all have the block, two equal draws, and no peer in the answer. */
  lemma ThirtyPeersNoAnswer(n: nat, channel: Hash, block: u32)
    requires n == GROUP && block < UINT_MAX
    ensures var keys, records := Uuids(n), Crowd(n, 0, channel, block);
            && Holdable(keys, records)
            && var vs, q := Listing(keys, records), Query(channel, n, block);
               Matching(vs, q) != [] && IsAnswer(vs, q, PEERS_ASKED, AllOnes(), [])
  {
    CrowdMatches(n, 0, channel, block, n);
    ThirtyOfCrowd(Listing(Uuids(n), Crowd(n, 0, channel, block)), Query(channel, n, block));
  }

  /** If only the peer behind the first group matches, the draws that settle on its group first find it twice. */
  lemma OnlyLastTwice(vs: seq<NodeView>, q: Query)
    requires |vs| == GROUP + 1 && MatchFrom(vs, q, GROUP)
    ensures var last := vs[GROUP].info;
            Matching(vs, q) == [last] && IsAnswer(vs, q, PEERS_ASKED, Backwards(1, 2), [last, last])
  {
    NoneMatches(vs[..GROUP], q);
    assert vs[0 * GROUP..1 * GROUP] == vs[..GROUP];
    var rest := vs[1 * GROUP..];
    assert rest == [vs[GROUP]] && rest[..0] == [];
    assert Matching(rest[..0], q) == [];
    LatePeersTwice(vs, q, PEERS_ASKED, 1);
    MatchesFromEarlier(vs, q, 0, 1);
    assert vs[0 * GROUP..] == vs;
  }

  /** Thirty-one recorded peers of which only the last has the block: the answer names it twice. */
  lemma {:induction false} LastPeerNamedTwice(n: nat, channel: Hash, block: u32)
    requires n == GROUP + 1 && block < UINT_MAX
    ensures var keys, records := Uuids(n), Crowd(n, GROUP, channel, block);
            && Holdable(keys, records)
            && var vs, q, last := Listing(keys, records), Query(channel, n, block), PeerInfo([GROUP], []);
               Matching(vs, q) == [last] && IsAnswer(vs, q, PEERS_ASKED, Backwards(1, 2), [last, last])
  {
    CrowdMatches(n, GROUP, channel, block, n);
    OnlyLastTwice(Listing(Uuids(n), Crowd(n, GROUP, channel, block)), Query(channel, n, block));
  }
}
