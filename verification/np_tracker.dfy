/** `RsNpTracker`: the handlers through which peers log in, report, ask for peers and log out. */
module NpTrackers {
  import opened Words
  import opened Runs
  import opened RunInsertion
  import opened RunWrapping
  import opened IntervalArrays
  import opened NpManagers
  import opened GroupDraws
  import opened GroupSearch
  import opened PeerSelection

  const PEERS_ASKED: nat := 20

  /** What a peer told the tracker since its login: the reported intervals in order, and its channel. */
  datatype Record = Record(channel: Hash, info: PeerInfo, reported: seq<BlockInterval>)

  /** The node that a record amounts to. */
  function NodeOf(u: Uuid, r: Record): NodeView {
    NodeView(u, r.channel, r.info, AddAll([], r.reported))
  }

  /** What is recorded, as nodes in key order. */
  function Listing(keys: seq<Uuid>, records: map<Uuid, Record>): (vs: seq<NodeView>)
    requires forall u :: u in keys ==> u in records
    ensures |vs| == |keys| && forall i :: 0 <= i < |vs| ==> vs[i] == NodeOf(keys[i], records[keys[i]])
  {
    seq(|keys|, i requires 0 <= i < |keys| => NodeOf(keys[i], records[keys[i]]))
  }

  lemma SameChannel(records: map<Uuid, Record>, u: Uuid)
    requires u in records
    ensures records[u := records[u].(channel := records[u].channel)] == records
  {
  }

  /** The nodes stand for the records. */
  ghost predicate Stands(views: map<Uuid, NodeView>, records: map<Uuid, Record>) {
    records.Keys == views.Keys && forall u :: u in records ==> views[u] == NodeOf(u, records[u])
  }

  lemma StandsUpdate(views: map<Uuid, NodeView>, records: map<Uuid, Record>, u: Uuid, r: Record)
    requires Stands(views, records)
    ensures Stands(views[u := NodeOf(u, r)], records[u := r])
  {
  }

  class NpTracker {
    const mgr: NpCoordinator
    ghost var records: map<Uuid, Record>

    ghost predicate Valid()
      reads this, mgr, mgr.owner.Keys
    {
      this !in mgr.owner && mgr.Valid() && Stands(mgr.views, records)
    }

    constructor ()
      ensures Valid() && records == map[] && fresh(mgr)
    {
      mgr := new NpCoordinator();
      records := map[];
    }

    /** Stores a node that stands for the record r. */
    method Store(u: Uuid, node: NPNode, ghost r: Record)
      requires Valid() && node.Valid() && mgr.Apart(node) && node.View() == NodeOf(u, r)
      modifies this, mgr, mgr.owner.Keys
      ensures Valid() && records == old(records)[u := r] && fresh(mgr.owner.Keys - old(mgr.owner.Keys))
    {
      StandsUpdate(mgr.views, records, u, r);
      mgr.InsertNode(u, node);
      records := records[u := r];
    }

    /** A login without a local address is dropped; any other starts the peer's record afresh. */
    method GetLogin(u: Uuid, addressCount: u8, info: PeerInfo)
      requires Valid()
      modifies this, mgr, mgr.owner.Keys
      ensures Valid()
      ensures records == if addressCount == 0 then old(records) else old(records)[u := Record("", info, [])]
    {
      if addressCount == 0 {
        return;
      }
      var node := NewNode(u, info);
      Store(u, node, Record("", info, []));
    }

    method NewNode(u: Uuid, info: PeerInfo) returns (node: NPNode)
      ensures fresh(node) && fresh(node.intervalArray) && fresh(node.intervalArray.runs)
      ensures node.Valid() && node.View() == NodeOf(u, Record("", info, []))
    {
      node := new NPNode();
      node.info := info;
      node.digits := u;
    }

    /** The loop of `get_report`. */
    method AddIntervals(node: NPNode, intervals: seq<BlockInterval>)
      requires node.Valid()
      modifies node.intervalArray, node.intervalArray.runs
      ensures node.Valid()
      ensures node.View() == old(node.View()).(runs := AddAll(old(node.View().runs), intervals))
      ensures node.intervalArray.runs == old(node.intervalArray.runs) || fresh(node.intervalArray.runs)
    {
      for i := 0 to |intervals|
        invariant node.Valid()
        invariant node.intervalArray.runs == old(node.intervalArray.runs) || fresh(node.intervalArray.runs)
        invariant node.View() == old(node.View()).(runs := AddAll(old(node.View().runs), intervals[..i]))
      {
        node.intervalArray.AddInterval(intervals[i].start, intervals[i].size);
        assert intervals[..i + 1][..i] == intervals[..i];
      }
      assert intervals[..|intervals|] == intervals;
    }

    /** Updating a local copy leaves the stored nodes alone. */
    method Accumulate(u: Uuid, node: NPNode, ghost r: Record, core: seq<u8>, intervals: seq<BlockInterval>)
      requires Valid() && node.Valid() && mgr.Apart(node) && node.View() == NodeOf(u, r)
      modifies node, node.intervalArray, node.intervalArray.runs
      ensures Valid() && node.Valid() && mgr.Apart(node)
      ensures node.View() ==
              NodeOf(u, Record(r.channel, PeerInfo(core, r.info.address), r.reported + intervals))
    {
      node.info := node.info.(core := core);
      AddIntervals(node, intervals);
      AddAllConcat([], r.reported, intervals);
    }

    /** A local node, and the stored one copied into it. */
    method FetchNode(u: Uuid) returns (found: bool, node: NPNode)
      requires Valid()
      ensures fresh(node) && fresh(node.intervalArray) && fresh(node.intervalArray.runs)
      ensures node.Valid() && (found <==> u in records)
      ensures found ==> node.View() == NodeOf(u, records[u])
    {
      node := new NPNode();
      found := mgr.GetNode(u, node);
    }

    /** The body of `get_report`. */
    method TakeReport(u: Uuid, core: seq<u8>, intervals: seq<BlockInterval>)
      requires Valid()
      modifies this, mgr, mgr.owner.Keys
      ensures Valid()
      ensures u !in old(records) || intervals == [] ==> records == old(records)
      ensures u in old(records) && intervals != [] ==>
                var r := old(records)[u];
                records == old(records)[u := Record(r.channel, PeerInfo(core, r.info.address), r.reported + intervals)]
    {
      var found, node := FetchNode(u);
      if !found {
        return;
      }
      if |intervals| == 0 {
        return;
      }
      ghost var r := records[u];
      Accumulate(u, node, r, core, intervals);
      Store(u, node, Record(r.channel, PeerInfo(core, r.info.address), r.reported + intervals));
    }

    /**
     A report of a known peer adds its intervals to those reported and replaces what the peer says of
     itself; one without intervals, or from an unknown peer, changes nothing. From then on the stored
     node answers for the blocks of the valid intervals reported before or now, given room.
     */
    method GetReport(u: Uuid, core: seq<u8>, intervals: seq<BlockInterval>)
      requires Valid() && |intervals| <= 0xff
      modifies this, mgr, mgr.owner.Keys
      ensures Valid()
      ensures u !in old(records) || intervals == [] ==> records == old(records)
      ensures u in old(records) && intervals != [] ==>
                var r := old(records)[u];
                records == old(records)[u := Record(r.channel, PeerInfo(core, r.info.address), r.reported + intervals)]
      ensures u in old(records) && intervals != [] && AllRoom(old(records)[u].reported + intervals) ==>
                && u in mgr.npnodeMap && mgr.npnodeMap[u].Valid()
                && AnswersBoth(mgr.npnodeMap[u].intervalArray.Contents(), old(records)[u].reported, intervals)
    {
      TakeReport(u, core, intervals);
      if u in records {
        StoredNode(u);
        FoundInEither(old(records)[u].reported, intervals);
      }
    }

    /** The stored node of a recorded peer. */
    lemma StoredNode(u: Uuid)
      requires Valid() && u in records
      ensures u in mgr.npnodeMap && mgr.npnodeMap[u].Valid()
      ensures mgr.npnodeMap[u].intervalArray.Contents() == AddAll([], records[u].reported)
    {
      assert mgr.Holds(mgr.npnodeMap[u], u, mgr.views[u]);
    }

    /** The recorded peers in key order. */
    ghost function Peers(): seq<NodeView>
      requires Valid()
      reads this, mgr, mgr.owner.Keys
    {
      Listing(mgr.keys, records)
    }

    /** The stored nodes in key order. */
    method ListNodes() returns (nodes: seq<NPNode>)
      requires Valid()
      ensures Shows(nodes, Peers())
    {
      nodes := [];
      for i := 0 to |mgr.keys|
        invariant |nodes| == i
        invariant forall k :: 0 <= k < i ==> Keeps(nodes[k], Peers()[k])
      {
        var u := mgr.keys[i];
        assert u in mgr.keys;
        assert mgr.Holds(mgr.npnodeMap[u], u, mgr.views[u]);
        nodes := nodes + [mgr.npnodeMap[u]];
      }
      assert forall k :: 0 <= k < |nodes| ==> Keeps(nodes[k], Peers()[k]);
    }

    /** Up to twenty peers for the query: the answer that the records and the draws determine. */
    method FindPeers(q: Query, draws: Draws) returns (peers: seq<PeerInfo>)
      requires Valid() && Ends(Peers(), q, PEERS_ASKED, draws)
      ensures IsAnswer(Peers(), q, PEERS_ASKED, draws, peers)
    {
      var nodes := ListNodes();
      peers := GetNpAddress(nodes, Peers(), q, PEERS_ASKED, draws);
    }

    /**
     Answers with peers for a block of a channel, which becomes the asking peer's channel.
     Without a super peer for the channel or a streaming server nothing happens.
     */
    method SendPeers(u: Uuid, channel: Hash, block: u32, cpCount: u8, spCount: u8, draws: Draws)
      returns (sent: Option<seq<PeerInfo>>)
      requires Valid() && Ends(Peers(), Query(channel, u, block), PEERS_ASKED, draws)
      modifies this, mgr, mgr.owner.Keys
      ensures Valid()
      ensures sent.Some? <==> cpCount != 0 && spCount != 0 && u in old(records)
      ensures records == if sent.Some? then old(records)[u := old(records)[u].(channel := channel)] else old(records)
      ensures sent.Some? ==> IsAnswer(old(Peers()), Query(channel, u, block), PEERS_ASKED, draws, sent.value)
    {
      var peers := FindPeers(Query(channel, u, block), draws);
      if cpCount == 0 || spCount == 0 {
        return None;
      }
      var found := SwitchChannel(u, channel);
      sent := if found then Some(peers) else None;
    }

    method SwitchChannel(u: Uuid, channel: Hash) returns (found: bool)
      requires Valid()
      modifies this, mgr, mgr.owner.Keys
      ensures Valid() && (found <==> u in old(records))
      ensures records == if found then old(records)[u := old(records)[u].(channel := channel)] else old(records)
    {
      var node;
      found, node := FetchNode(u);
      if found {
        node.channel := channel;
        Store(u, node, records[u].(channel := channel));
      }
    }

    method ChannelOf(u: Uuid) returns (found: bool, channel: Hash)
      requires Valid()
      ensures Valid() && Peers() == old(Peers())
      ensures (found <==> u in records) && (found ==> channel == records[u].channel)
    {
      var node;
      found, node := FetchNode(u);
      channel := node.channel;
    }

    /** A request for peers of the asking peer's own channel. */
    method GetNeedPeers(u: Uuid, block: u32, cpCount: u8, spCount: u8, draws: Draws)
      returns (sent: Option<seq<PeerInfo>>)
      requires Valid()
      requires u in records ==> Ends(Peers(), Query(records[u].channel, u, block), PEERS_ASKED, draws)
      modifies this, mgr, mgr.owner.Keys
      ensures Valid() && records == old(records)
      ensures sent.Some? <==> cpCount != 0 && spCount != 0 && u in records
      ensures sent.Some? ==> IsAnswer(old(Peers()), Query(records[u].channel, u, block), PEERS_ASKED, draws, sent.value)
    {
      var found, channel := ChannelOf(u);
      if !found {
        return None;
      }
      SameChannel(records, u);
      sent := SendPeers(u, channel, block, cpCount, spCount, draws);
    }

    method GetLogout(u: Uuid)
      requires Valid()
      modifies this, mgr
      ensures Valid() && records == old(records) - {u}
    {
      mgr.DeleteNode(u);
      records := records - {u};
    }
  }

  /** Some recorded peer matches the query and is the one that is described. */
  ghost predicate OfferedBy(records: map<Uuid, Record>, q: Query, p: PeerInfo) {
    exists v :: v in records && Matches(NodeOf(v, records[v]), q) && p == records[v].info
  }

  /** Whatever the draws: at most twenty peers, each of them recorded in the channel and with the block. */
  lemma AnswerFromRecords(keys: seq<Uuid>, records: map<Uuid, Record>, q: Query, draws: Draws, peers: seq<PeerInfo>)
    requires forall u :: u in keys ==> u in records
    requires IsAnswer(Listing(keys, records), q, PEERS_ASKED, draws, peers)
    ensures |peers| <= PEERS_ASKED && forall p :: p in peers ==> OfferedBy(records, q, p)
  {
    var vs := Listing(keys, records);
    EndsWithOffered(vs, q, PEERS_ASKED, CourseOf(vs, draws), peers);
    forall p | p in peers
      ensures OfferedBy(records, q, p)
    {
      var j :| 0 <= j < |vs| && Matches(vs[j], q) && p == vs[j].info;
      assert Matches(NodeOf(keys[j], records[keys[j]]), q);
    }
  }

  /** The array answers for the blocks of the valid intervals reported before and now. */
  ghost predicate AnswersBoth(runs: seq<BlockInterval>, before: seq<BlockInterval>, now: seq<BlockInterval>) {
    forall b: u32 :: Finds(runs, b) <==> HasSound(before, b) || HasSound(now, b)
  }

  lemma FoundInEither(before: seq<BlockInterval>, now: seq<BlockInterval>)
    ensures AllRoom(before + now) ==> AnswersBoth(AddAll([], before + now), before, now)
  {
    if AllRoom(before + now) {
      forall b: u32
        ensures Finds(AddAll([], before + now), b) <==> HasSound(before, b) || HasSound(now, b)
      {
        HasSoundConcat(before, now, b);
        FindsGivenRoom(before + now, b);
      }
    }
  }

  /**
   A peer that is offered for a block has reported the block in a valid interval, whatever else it
   reported, and even if its array overflowed.
   */
  lemma OfferedHasReported(v: Uuid, r: Record, q: Query)
    requires Matches(NodeOf(v, r), q)
    ensures v != q.asking && r.channel == q.channel
    ensures exists i :: 0 <= i < |r.reported| && r.reported[i].Sound() && r.reported[i].Contains(q.block)
  {
    FindsOnlyValid(r.reported, q.block);
  }

  /**
   A peer matches a query exactly if it is another peer of the channel and has reported the block in
   a valid interval, given that its valid intervals found room.
   */
  lemma MatchesIff(v: Uuid, r: Record, q: Query)
    requires AllRoom(r.reported)
    ensures Matches(NodeOf(v, r), q) <==> r.channel == q.channel && v != q.asking && HasSound(r.reported, q.block)
  {
    FindsGivenRoom(r.reported, q.block);
  }

  /** What is reported up to interval k. */
  function Earlier(r: Record, k: nat): Record
    requires k <= |r.reported|
  {
    r.(reported := r.reported[..k])
  }

  /** The stored node answers exactly for the blocks of the valid reported intervals. */
  ghost predicate AnswersReported(v: Uuid, r: Record) {
    forall block: u32 :: Finds(NodeOf(v, r).runs, block) <==> HasSound(r.reported, block)
  }

  /**
   At every moment since the login the stored node answers exactly for the blocks of the valid
   intervals reported, if and only if each of these found room at its turn. Any 65535 intervals,
   valid or not, leave room enough.
   */
  lemma StoredIsReported(v: Uuid, r: Record)
    ensures AllRoom(r.reported) <==> forall k :: 0 <= k <= |r.reported| ==> AnswersReported(v, Earlier(r, k))
    ensures |r.reported| <= MAX_RUNS ==> AllRoom(r.reported)
  {
    AlwaysHoldsValidIff(r.reported);
    AlwaysAnswersValidIff(r.reported);
    assert forall k :: 0 <= k <= |r.reported| ==>
        (AnswersReported(v, Earlier(r, k)) <==> AnswersValid(r.reported[..k]));
  }

  /** If no reported interval wraps, the stored array is canonical, and denotes exactly their union. */
  lemma StoredIsUnion(v: Uuid, r: Record)
    ensures AllAccepted([], r.reported) <==> AlwaysUnion([], r.reported)
    ensures AllAccepted([], r.reported) ==> IsUnionAll(NodeOf(v, r).runs, [], r.reported)
    ensures NoWrap(r.reported) && |r.reported| <= MAX_RUNS ==> AllAccepted([], r.reported)
  {
    AddAllUnionIff([], r.reported);
    if AllAccepted([], r.reported) {
      AddAllUnion([], r.reported);
    }
    if NoWrap(r.reported) && |r.reported| <= MAX_RUNS {
      ShortHistoryAccepted([], r.reported);
    }
  }
}
