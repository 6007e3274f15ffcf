/** `RsTrackerNpCoordinator`: the tracker's peers by uuid, stored and handed out by deep copy. */
module NpManagers {
  import opened Words
  import opened Runs
  import opened IntervalArrays

  /** `CorePeerInfo` and `P2PAddress`, kept as opaque bytes. */
  datatype PeerInfo = PeerInfo(core: seq<u8>, address: seq<u8>)

  /** What a node says about its peer. */
  datatype NodeView = NodeView(digits: Uuid, channel: Hash, info: PeerInfo, runs: seq<BlockInterval>)

  class NPNode {
    var digits: Uuid
    var channel: Hash
    var info: PeerInfo
    const intervalArray: IntervalArray

    ghost predicate Valid()
      reads this, intervalArray
    {
      intervalArray.Valid()
    }

    ghost function View(): NodeView
      requires Valid()
      reads this, intervalArray, intervalArray.runs
    {
      NodeView(digits, channel, info, intervalArray.Contents())
    }

    constructor ()
      ensures Valid() && fresh(intervalArray) && fresh(intervalArray.runs)
      ensures View() == NodeView(0, "", PeerInfo([], []), [])
    {
      digits, channel, info := 0, "", PeerInfo([], []);
      intervalArray := new IntervalArray();
    }

    /** The assignment operator copies the interval array, not a reference to it. */
    method Assign(node: NPNode)
      requires Valid() && node.Valid() && (node != this ==> node.intervalArray != intervalArray)
      modifies this, intervalArray
      ensures Valid() && View() == old(node.View())
      ensures node != this ==> fresh(intervalArray.runs)
      ensures node == this ==> intervalArray.runs == old(intervalArray.runs)
    {
      if node == this {
        return;
      }
      digits, channel, info := node.digits, node.channel, node.info;
      intervalArray.Assign(node.intervalArray);
    }
  }

  method CopyOf(node: NPNode) returns (copy: NPNode)
    requires node.Valid()
    ensures fresh(copy) && fresh(copy.intervalArray) && fresh(copy.intervalArray.runs)
    ensures copy.Valid() && copy.View() == node.View()
  {
    copy := new NPNode();
    copy.Assign(node);
  }

  ghost predicate Keeps(node: NPNode, v: NodeView)
    reads node, node.intervalArray, node.intervalArray.runs
  {
    node.Valid() && node.View() == v
  }

  /** Object o belongs to the node of u. */
  ghost predicate Owned(owner: map<object, Uuid>, o: object, u: Uuid) {
    o in owner && owner[o] == u
  }

  ghost predicate StrictlyAscending(keys: seq<Uuid>) {
    forall i, j :: 0 <= i < j < |keys| ==> keys[i] < keys[j]
  }

  /** Position of the first key not below k. */
  method LowerBound(keys: seq<Uuid>, k: Uuid) returns (p: nat)
    requires StrictlyAscending(keys)
    ensures p <= |keys|
    ensures forall i :: 0 <= i < p ==> keys[i] < k
    ensures forall i :: p <= i < |keys| ==> k <= keys[i]
  {
    p := 0;
    while p < |keys| && keys[p] < k
      invariant p <= |keys| && forall i :: 0 <= i < p ==> keys[i] < k
    {
      p := p + 1;
    }
  }

  lemma KeyInserted(keys: seq<Uuid>, p: nat, k: Uuid)
    requires StrictlyAscending(keys) && p <= |keys| && k !in keys
    requires forall i :: 0 <= i < p ==> keys[i] < k
    requires forall i :: p <= i < |keys| ==> k <= keys[i]
    ensures StrictlyAscending(keys[..p] + [k] + keys[p..])
  {
    forall i | p <= i < |keys|
      ensures k < keys[i]
    {
      assert keys[i] in keys;
    }
  }

  lemma KeyRemoved(keys: seq<Uuid>, p: nat, k: Uuid)
    requires StrictlyAscending(keys) && p <= |keys| && k in keys
    requires forall i :: 0 <= i < p ==> keys[i] < k
    requires forall i :: p <= i < |keys| ==> k <= keys[i]
    ensures p < |keys| && keys[p] == k
    ensures StrictlyAscending(keys[..p] + keys[p + 1..])
    ensures forall u :: u in keys[..p] + keys[p + 1..] <==> u in keys && u != k
  {
    var i :| 0 <= i < |keys| && keys[i] == k;
    assert p <= i && keys[p] <= keys[i];
    assert keys == keys[..p] + [k] + keys[p + 1..];
    assert k !in keys[..p] && k !in keys[p + 1..];
  }

  lemma KeyMembers(keys: seq<Uuid>, p: nat, k: Uuid)
    requires p <= |keys|
    ensures forall u :: u in keys[..p] + [k] + keys[p..] <==> u in keys || u == k
  {
    assert keys == keys[..p] + keys[p..];
  }

  method AddKey(keys: seq<Uuid>, u: Uuid) returns (r: seq<Uuid>)
    requires StrictlyAscending(keys) && u !in keys
    ensures StrictlyAscending(r) && forall v :: v in r <==> v in keys || v == u
  {
    var p := LowerBound(keys, u);
    KeyInserted(keys, p, u);
    KeyMembers(keys, p, u);
    r := keys[..p] + [u] + keys[p..];
  }

  class NpCoordinator {
    /** The map's nodes and its keys in iteration order. */
    var npnodeMap: map<Uuid, NPNode>
    var keys: seq<Uuid>
    /** What is stored for each uuid. */
    ghost var views: map<Uuid, NodeView>
    /** The uuid whose node an object belongs to; no two nodes share one. */
    ghost var owner: map<object, Uuid>

    ghost predicate Holds(node: NPNode, u: Uuid, v: NodeView)
      reads this, owner.Keys
    {
      && Owned(owner, node, u) && Owned(owner, node.intervalArray, u) && Owned(owner, node.intervalArray.runs, u)
      && Keeps(node, v)
    }

    ghost predicate Valid()
      reads this, owner.Keys
    {
      && this !in owner && views.Keys == npnodeMap.Keys
      && StrictlyAscending(keys) && (forall u :: u in keys <==> u in npnodeMap)
      && forall u :: u in npnodeMap ==> Holds(npnodeMap[u], u, views[u])
    }

    constructor ()
      ensures Valid() && views == map[] && owner == map[]
    {
      npnodeMap := map[];
      keys := [];
      views := map[];
      owner := map[];
    }

    /** A node that shares nothing with the stored ones. */
    ghost predicate Apart(node: NPNode)
      reads this, node.intervalArray
    {
      node !in owner && node.intervalArray !in owner && node.intervalArray.runs !in owner
    }

    /** Copies a node out. */
    method GetNode(u: Uuid, node: NPNode) returns (found: bool)
      requires Valid() && node.Valid() && Apart(node)
      modifies node, node.intervalArray
      ensures Valid() && node.Valid() && Apart(node)
      ensures found <==> u in views
      ensures node.View() == if found then views[u] else old(node.View())
      ensures node.intervalArray.runs == old(node.intervalArray.runs) || fresh(node.intervalArray.runs)
    {
      if u !in npnodeMap {
        return false;
      }
      assert Holds(npnodeMap[u], u, views[u]);
      node.Assign(npnodeMap[u]);
      forall v | v in npnodeMap
        ensures Holds(npnodeMap[v], v, views[v])
      {
        assert old(Holds(npnodeMap[v], v, views[v]));
      }
      found := true;
    }

    /** The branch of `insert_Node` for a uuid that is there. */
    method OverwriteNode(u: Uuid, node: NPNode)
      requires Valid() && node.Valid() && Apart(node) && u in npnodeMap
      modifies this`owner, this`views, owner.Keys
      ensures Valid() && fresh(owner.Keys - old(owner.Keys))
      ensures views == old(views)[u := old(node.View())]
    {
      ghost var given := node.View();
      AssignTo(u, node);
      Refresh(u, given);
    }

    /** Once the node of u has changed and got a new run array, records both. */
    ghost method Refresh(u: Uuid, v: NodeView)
      requires ValidBut(u) && Keeps(npnodeMap[u], v)
      requires Owned(owner, npnodeMap[u], u) && Owned(owner, npnodeMap[u].intervalArray, u)
      requires npnodeMap[u].intervalArray.runs !in owner
      modifies this`owner, this`views
      ensures Valid() && views == old(views)[u := v]
      ensures owner.Keys == old(owner.Keys) + {npnodeMap[u].intervalArray.runs}
    {
      Claim(u, v);
      Note(u, v);
    }

    /** Assigns to the node of u, which gets a new run array. */
    method AssignTo(u: Uuid, node: NPNode)
      requires Valid() && node.Valid() && Apart(node) && u in npnodeMap
      modifies npnodeMap[u], npnodeMap[u].intervalArray
      ensures ValidBut(u) && Keeps(npnodeMap[u], old(node.View()))
      ensures Owned(owner, npnodeMap[u], u) && Owned(owner, npnodeMap[u].intervalArray, u)
      ensures fresh(npnodeMap[u].intervalArray.runs)
    {
      assert Holds(npnodeMap[u], u, views[u]);
      var mine := npnodeMap[u];
      mine.Assign(node);
      forall v | v in npnodeMap && v != u
        ensures Holds(npnodeMap[v], v, views[v])
      {
        assert old(Holds(npnodeMap[v], v, views[v]));
      }
    }

    /** All nodes but the one of u are as recorded. */
    ghost predicate ValidBut(u: Uuid)
      reads this, owner.Keys
    {
      && this !in owner && views.Keys == npnodeMap.Keys && u in npnodeMap
      && StrictlyAscending(keys) && (forall v :: v in keys <==> v in npnodeMap)
      && forall v :: v in npnodeMap && v != u ==> Holds(npnodeMap[v], v, views[v])
    }

    /** The run array of the node of u comes to belong to u. */
    ghost method Claim(u: Uuid, v: NodeView)
      requires ValidBut(u) && Keeps(npnodeMap[u], v)
      requires Owned(owner, npnodeMap[u], u) && Owned(owner, npnodeMap[u].intervalArray, u)
      requires npnodeMap[u].intervalArray.runs !in owner
      modifies this`owner
      ensures ValidBut(u) && Holds(npnodeMap[u], u, v)
      ensures owner.Keys == old(owner.Keys) + {npnodeMap[u].intervalArray.runs}
    {
      owner := owner[npnodeMap[u].intervalArray.runs := u];
      forall w | w in npnodeMap && w != u
        ensures Holds(npnodeMap[w], w, views[w])
      {
        assert old(Holds(npnodeMap[w], w, views[w]));
      }
    }

    /** Records what the node of u now says. */
    ghost method Note(u: Uuid, v: NodeView)
      requires ValidBut(u) && Holds(npnodeMap[u], u, v)
      modifies this`views
      ensures Valid() && views == old(views)[u := v]
    {
      views := views[u := v];
      assert Holds(npnodeMap[u], u, v);
      forall w | w in npnodeMap && w != u
        ensures Holds(npnodeMap[w], w, views[w])
      {
        assert old(Holds(npnodeMap[w], w, views[w]));
      }
    }

    /** One more object comes to belong to u. */
    ghost method Adopt(o: object, u: Uuid)
      requires Valid() && o !in owner && o != this
      modifies this`owner
      ensures Valid() && owner == old(owner)[o := u]
    {
      owner := owner[o := u];
      forall v | v in npnodeMap
        ensures Holds(npnodeMap[v], v, views[v])
      {
        assert old(Holds(npnodeMap[v], v, views[v]));
      }
    }

    ghost method AdoptNode(copy: NPNode, u: Uuid)
      requires Valid() && Apart(copy) && copy.Valid()
      modifies this`owner
      ensures Valid() && Holds(copy, u, copy.View())
      ensures owner.Keys == old(owner.Keys) + {copy, copy.intervalArray, copy.intervalArray.runs}
    {
      Adopt(copy, u);
      Adopt(copy.intervalArray, u);
      Adopt(copy.intervalArray.runs, u);
    }

    /** Puts a node whose objects already belong to u into the map. */
    method Link(u: Uuid, copy: NPNode)
      requires Valid() && copy.Valid() && Holds(copy, u, copy.View()) && u !in npnodeMap
      modifies this`keys, this`npnodeMap, this`views
      ensures Valid() && views == old(views)[u := copy.View()]
    {
      ghost var v := copy.View();
      var ascending := AddKey(keys, u);
      keys, npnodeMap, views := ascending, npnodeMap[u := copy], views[u := v];
      assert Holds(copy, u, v);
      forall w | w in old(npnodeMap)
        ensures Holds(npnodeMap[w], w, views[w])
      {
        assert old(Holds(npnodeMap[w], w, views[w]));
      }
    }

    /** The branch of `insert_Node` for a new uuid. */
    method AddNode(u: Uuid, node: NPNode)
      requires Valid() && node.Valid() && u !in npnodeMap
      modifies this
      ensures Valid() && fresh(owner.Keys - old(owner.Keys))
      ensures views == old(views)[u := node.View()]
    {
      var copy := CopyOf(node);
      AdoptNode(copy, u);
      Link(u, copy);
    }

    /** Copies a node in, over the one that is there or as a new one. */
    method InsertNode(u: Uuid, node: NPNode)
      requires Valid() && node.Valid() && Apart(node)
      modifies this, owner.Keys
      ensures Valid() && fresh(owner.Keys - old(owner.Keys))
      ensures views == old(views)[u := old(node.View())]
    {
      if u in npnodeMap {
        OverwriteNode(u, node);
      } else {
        AddNode(u, node);
      }
    }

    method Unlink(u: Uuid)
      requires this !in owner && u in npnodeMap && views.Keys == npnodeMap.Keys
      requires StrictlyAscending(keys) && forall v :: v in keys <==> v in npnodeMap && v != u
      requires forall v :: v in npnodeMap ==> Holds(npnodeMap[v], v, views[v])
      modifies this`npnodeMap, this`views
      ensures Valid() && views == old(views) - {u}
    {
      npnodeMap := npnodeMap - {u};
      views := views - {u};
      forall v | v in npnodeMap
        ensures Holds(npnodeMap[v], v, views[v])
      {
        assert old(Holds(npnodeMap[v], v, views[v]));
      }
    }

    method DeleteNode(u: Uuid)
      requires Valid()
      modifies this`keys, this`npnodeMap, this`views
      ensures Valid() && views == old(views) - {u}
    {
      if u in npnodeMap {
        var p := LowerBound(keys, u);
        KeyRemoved(keys, p, u);
        keys := keys[..p] + keys[p + 1..];
        Unlink(u);
      }
    }
  }
}
