/** `RsSourceManager`: one buffer queue per channel, and the capture server's write round on it. */
module SourceManagers {
  import opened Words
  import opened Rings
  import opened BufferQueues

  const MAX_BUFFER_SIZE: nat := 1024

  datatype Code = Success | NotFound

  ghost predicate Separate(a: BufferQueue, b: BufferQueue)
    reads a, b
  {
    a.Repr !! b.Repr
  }

  class SourceManager {
    var sources: map<Hash, BufferQueue>
    ghost var Repr: set<object>

    ghost predicate Valid()
      reads this, Repr
      ensures Valid() ==> this in Repr
    {
      && this in Repr
      && (forall h :: h in sources ==> Owns(sources[h]))
      && (forall h, g :: h in sources && g in sources && h != g ==> Separate(sources[h], sources[g]))
    }

    ghost predicate Owns(queue: BufferQueue)
      reads this, Repr
    {
      queue in Repr && queue.Repr <= Repr && this !in queue.Repr && queue.Valid()
    }

    constructor ()
      ensures Valid() && fresh(Repr) && sources == map[]
    {
      sources := map[];
      Repr := {this};
    }

    /** What happens inside one channel's queue touches no other queue. */
    twostate lemma OthersKept(hash: Hash)
      requires old(Valid()) && hash in old(sources) && sources == old(sources) && Repr == old(Repr)
      requires sources[hash].Repr == old(sources[hash].Repr) && sources[hash].Valid()
      requires forall o :: o in Repr && o !in old(sources[hash].Repr) ==> unchanged(o)
      ensures forall h :: h in sources && h != hash ==>
                && sources[h].Valid() && sources[h].Repr == old(sources[h].Repr)
                && sources[h].View() == old(sources[h].View())
    {
      forall h | h in sources && h != hash
        ensures sources[h].Valid() && sources[h].Repr == old(sources[h].Repr)
        ensures sources[h].View() == old(sources[h].View())
      {
        assert old(Owns(sources[h])) && old(Separate(sources[h], sources[hash]));
        assert forall o :: o in old(sources[h].Repr) ==> unchanged(o);
      }
    }

    /** Queues that are each intact and kept their footprints still make up a valid manager. */
    twostate lemma StillValid()
      requires old(Valid()) && sources == old(sources) && Repr == old(Repr)
      requires forall h :: h in sources ==> sources[h].Valid() && sources[h].Repr == old(sources[h].Repr)
      ensures Valid()
    {
      forall h | h in sources
        ensures Owns(sources[h])
      {
        assert old(Owns(sources[h]));
      }
      forall h, g | h in sources && g in sources && h != g
        ensures Separate(sources[h], sources[g])
      {
        assert old(Separate(sources[h], sources[g]));
      }
    }

    /** Queues do not change when only the manager itself does. */
    twostate lemma QueuesKept()
      requires old(Valid()) && forall o :: o in old(Repr) && o != this ==> unchanged(o)
      ensures forall h :: h in old(sources) ==> old(sources)[h].View() == old(sources[h].View())
    {
      forall h | h in old(sources)
        ensures old(sources)[h].View() == old(sources[h].View())
      {
        assert old(Owns(sources[h]));
        assert forall o :: o in old(sources[h].Repr) ==> unchanged(o);
      }
    }

    /** A new channel gets an empty queue; a known one keeps its queue and everything in it. */
    method CreateSource(hash: Hash)
      requires Valid()
      modifies this
      ensures Valid() && fresh(Repr - old(Repr))
      ensures hash in old(sources) ==> sources == old(sources)
      ensures hash !in old(sources) ==>
                && hash in sources && sources == old(sources)[hash := sources[hash]]
                && Reserved(sources[hash].View(), MAX_BUFFER_SIZE)
      ensures forall h :: h in old(sources) ==> old(sources)[h].View() == old(sources[h].View())
    {
      if hash !in sources {
        var queue := new BufferQueue(MAX_BUFFER_SIZE);
        AddQueue(hash, queue);
      }
      QueuesKept();
    }

    method AddQueue(hash: Hash, queue: BufferQueue)
      requires Valid() && hash !in sources && queue.Valid() && queue.Repr !! Repr && this !in queue.Repr
      modifies this
      ensures Valid() && sources == old(sources)[hash := queue] && Repr == old(Repr) + queue.Repr
    {
      sources := sources[hash := queue];
      Repr := Repr + queue.Repr;
      forall h | h in old(sources)
        ensures Owns(sources[h]) && Separate(sources[h], queue) && Separate(queue, sources[h])
      {
        assert old(Owns(sources[h]));
      }
      forall h, g | h in old(sources) && g in old(sources) && h != g
        ensures Separate(sources[h], sources[g])
      {
        assert old(Separate(sources[h], sources[g]));
      }
    }

    method QueueBlock(hash: Hash) returns (code: Code, buf: MediaBuffer?)
      requires Valid()
      modifies if hash in sources then sources[hash].Repr else {}
      ensures Valid() && Repr == old(Repr) && sources == old(sources)
      ensures hash !in sources ==> code == NotFound && buf == null
      ensures hash in sources ==>
                && code == Success
                && sources[hash].Repr == old(sources[hash].Repr)
                && buf == sources[hash].bufferVector[sources[hash].queueIndex]
                && sources[hash].View() == Rings.QueueBuffer(old(sources[hash].View()))
      ensures forall h :: h in sources && h != hash ==> sources[h].View() == old(sources[h].View())
    {
      if hash !in sources {
        return NotFound, null;
      }
      assert Owns(sources[hash]);
      buf := sources[hash].QueueBuffer();
      code := Success;
      OthersKept(hash);
      StillValid();
    }

    method SetBlockAvailable(hash: Hash, blockId: int) returns (code: Code)
      requires Valid()
      modifies if hash in sources then sources[hash].Repr else {}
      ensures Valid() && Repr == old(Repr) && sources == old(sources)
      ensures hash !in sources ==> code == NotFound
      ensures hash in sources ==>
                && code == Success
                && sources[hash].View() == UpdateAttr(old(sources[hash].View()), blockId, Available)
      ensures forall h :: h in sources && h != hash ==> sources[h].View() == old(sources[h].View())
    {
      if hash !in sources {
        return NotFound;
      }
      assert Owns(sources[hash]);
      sources[hash].UpdateBufferAttr(blockId, Available);
      code := Success;
      OthersKept(hash);
      StillValid();
    }

    /** The copy of the capture server's bytes into the slot in flight. */
    method StoreBytes(hash: Hash, buf: MediaBuffer, data: seq<u8>)
      requires Valid() && hash in sources && |data| <= MEDIA_BLOCK_SIZE
      requires buf == sources[hash].bufferVector[sources[hash].queueIndex]
      modifies sources[hash].Repr
      ensures Valid() && Repr == old(Repr) && sources == old(sources)
      ensures sources[hash].Repr == old(sources[hash].Repr)
      ensures sources[hash].View() == FillSlot(old(sources[hash].View()), data)
      ensures forall h :: h in sources && h != hash ==> sources[h].View() == old(sources[h].View())
    {
      assert Owns(sources[hash]);
      assert buf.buffer in SlotObjects(sources[hash].bufferVector);
      sources[hash].CopyInto(buf, data);
      OthersKept(hash);
      StillValid();
    }

    /** The bytes that a response for the block would be packed from. */
    method DequeueBlock(hash: Hash, blockId: int) returns (code: Code, block: Option<seq<u8>>)
      requires Valid()
      ensures code == if hash in sources then Success else NotFound
      ensures block == if hash in sources then Lookup(sources[hash].View(), blockId) else None
    {
      if hash !in sources {
        return NotFound, None;
      }
      var buf := sources[hash].DequeueBuffer(blockId);
      code := Success;
      block := if buf == null then None else Some(buf.buffer[..]);
    }

    /** `RsCsSpProtocol::get_block`: the whole write round for one block from the capture server. */
    method GetBlock(hash: Hash, blockId: int, data: seq<u8>)
      requires Valid() && hash in sources && |data| <= MEDIA_BLOCK_SIZE
      modifies sources[hash].Repr
      ensures Valid() && Repr == old(Repr) && sources == old(sources)
      ensures sources[hash].View() == Round(old(sources[hash].View()), Write(blockId, data))
      ensures forall h :: h in sources && h != hash ==> sources[h].View() == old(sources[h].View())
    {
      var code, buf := QueueBlock(hash);
      StoreBytes(hash, buf, data);
      code := SetBlockAvailable(hash, blockId);
    }
  }

  /** The whole contents of the slot that answers to a block id. */
  function Lookup(r: Ring, blockId: int): Option<seq<u8>>
    requires r.WellFormed()
  {
    match Dequeue(r, blockId)
    case None => None
    case Some(i) => Some(r.slots[i].buffer)
  }
}
