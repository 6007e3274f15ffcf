/** `RsBufferQueue`: the ring of media buffers, with the slots as objects that callers write to. */
module BufferQueues {
  import opened Words
  import opened Rings

  class MediaBuffer {
    var flag: BufferFlag
    var blockId: int
    var blockSize: int
    const buffer: array<u8>

    ghost function View(): Slot
      reads this, buffer
    {
      Slot(flag, blockId, blockSize, buffer[..])
    }

    constructor ()
      ensures flag == Available && blockId == 0 && blockSize == MEDIA_BLOCK_SIZE
      ensures buffer.Length == MEDIA_BLOCK_SIZE && fresh(buffer)
    {
      flag := Available;
      blockId := 0;
      blockSize := MEDIA_BLOCK_SIZE;
      buffer := new u8[MEDIA_BLOCK_SIZE];
    }
  }

  /** No two slots share an object or a byte buffer. */
  ghost predicate Apart(slots: seq<MediaBuffer>) {
    forall i, j :: 0 <= i < j < |slots| ==> slots[i] != slots[j] && slots[i].buffer != slots[j].buffer
  }

  ghost function SlotObjects(slots: seq<MediaBuffer>): set<object> {
    (set i | 0 <= i < |slots| :: slots[i] as object) + (set i | 0 <= i < |slots| :: slots[i].buffer as object)
  }

  ghost function SlotViews(slots: seq<MediaBuffer>): (r: seq<Slot>)
    reads SlotObjects(slots)
    ensures |r| == |slots| && forall i :: 0 <= i < |slots| ==> r[i] == slots[i].View()
  {
    seq(|slots|, i requires 0 <= i < |slots| 
                   reads if 0 <= i < |slots| then {slots[i] as object, slots[i].buffer} else {} =>
                     slots[i].View())
  }

  class BufferQueue {
    var queueIndex: nat
    var minBlockId: int
    var minBlockIndex: nat
    var bufferFull: bool
    var bufferNumber: nat
    var bufferVector: seq<MediaBuffer>
    ghost var Repr: set<object>

    ghost predicate Valid()
      reads this, Repr
      ensures Valid() ==> this in Repr
    {
      && Repr == {this} + SlotObjects(bufferVector)
      && Apart(bufferVector)
      && (forall i :: 0 <= i < |bufferVector| ==> bufferVector[i].buffer.Length == MEDIA_BLOCK_SIZE)
      && 0 < bufferNumber == |bufferVector|
      && queueIndex < bufferNumber && minBlockIndex < bufferNumber
    }

    ghost function View(): (r: Ring)
      requires Valid()
      reads this, Repr
      ensures r.WellFormed() && forall i :: 0 <= i < |r.slots| ==> |r.slots[i].buffer| == MEDIA_BLOCK_SIZE
    {
      Ring(queueIndex, minBlockId, minBlockIndex, bufferFull, SlotViews(bufferVector))
    }

    /** The constructor followed by `reserve_buffer(size)`. */
    constructor (size: nat)
      requires 0 < size
      ensures Valid() && fresh(Repr) && Reserved(View(), size)
    {
      queueIndex, minBlockId, minBlockIndex, bufferFull := 0, 0, 0, false;
      bufferNumber := size;
      var v: seq<MediaBuffer> := [];
      for i := 0 to size
        invariant |v| == i && Apart(v)
        invariant forall k :: 0 <= k < i ==> fresh(v[k]) && fresh(v[k].buffer)
        invariant forall k :: 0 <= k < i ==> v[k].buffer.Length == v[k].blockSize == MEDIA_BLOCK_SIZE
      {
        var buf := new MediaBuffer();
        v := v + [buf];
      }
      bufferVector := v;
      Repr := {this} + SlotObjects(v);
    }

    /** Hands out the next slot for writing and, once the ring is full, gives up the oldest id. */
    method QueueBuffer() returns (buf: MediaBuffer)
      requires Valid()
      modifies Repr
      ensures Valid() && Repr == old(Repr) && bufferVector == old(bufferVector)
      ensures View() == Rings.QueueBuffer(old(View()))
      ensures buf == bufferVector[queueIndex]
    {
      buf := bufferVector[queueIndex];
      buf.flag := Writing;
      if bufferFull {
        minBlockId := minBlockId + 1;
        minBlockIndex := (queueIndex + 1) % bufferNumber;
        NextIsRemainder(queueIndex, bufferNumber);
      }
      assert View().slots == Rings.QueueBuffer(old(View())).slots;
    }

    method UpdateBufferAttr(blockId: int, flag: BufferFlag)
      requires Valid()
      modifies Repr
      ensures Valid() && Repr == old(Repr) && bufferVector == old(bufferVector)
      ensures View() == UpdateAttr(old(View()), blockId, flag)
    {
      var buf := bufferVector[queueIndex];
      buf.blockId := blockId;
      buf.flag := flag;
      assert SlotViews(bufferVector) == UpdateAttr(old(View()), blockId, flag).slots;
      if !bufferFull && queueIndex + 1 == bufferNumber {
        bufferFull := true;
      }
      NextIsRemainder(queueIndex, bufferNumber);
      queueIndex := (queueIndex + 1) % bufferNumber;
    }

    method DequeueBuffer(blockId: int) returns (buf: MediaBuffer?)
      requires Valid()
      ensures buf == match Dequeue(View(), blockId) case None => null case Some(i) => bufferVector[i]
    {
      var size := if bufferFull then bufferNumber else queueIndex;
      if minBlockId > blockId || blockId >= minBlockId + size {
        return null;
      }
      var offset := blockId - minBlockId;
      if offset < bufferNumber - minBlockIndex {
        return bufferVector[minBlockIndex + offset];
      } else {
        return bufferVector[offset - (bufferNumber - minBlockIndex)];
      }
    }

    /** The advertised interval is exactly the set of ids that `dequeue_buffer` finds. */
    method GetBufferInterval() returns (start: int, end: int)
      requires Valid()
      ensures (start, end) == Advertised(View())
      ensures forall id :: start <= id < end <==> Dequeue(View(), id).Some?
    {
      start := minBlockId;
      if bufferFull {
        end := start + bufferNumber;
      } else {
        end := start + queueIndex;
      }
    }

    /** The writer's copy into the slot that `queue_buffer` handed out. */
    method CopyInto(buf: MediaBuffer, data: seq<u8>)
      requires Valid() && buf == bufferVector[queueIndex] && |data| <= MEDIA_BLOCK_SIZE
      modifies buf.buffer
      ensures Valid() && Repr == old(Repr)
      ensures View() == FillSlot(old(View()), data)
      ensures forall k :: 0 <= k < |data| ==> buf.buffer[k] == data[k]
      ensures forall k :: |data| <= k < MEDIA_BLOCK_SIZE ==> buf.buffer[k] == old(buf.buffer[k])
    {
      forall k | 0 <= k < |data| {
        buf.buffer[k] := data[k];
      }
      var q := queueIndex;
      assert buf.buffer[..] == data + old(buf.buffer[..])[|data|..];
      assert View().slots == FillSlot(old(View()), data).slots;
    }
  }
}
