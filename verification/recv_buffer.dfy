/** `RsBuffer`: the compacting, growing receive buffer, and the socket it fills itself from. */
module RecvBuffers {
  import opened Words
  import opened RecvGeometry

  /** The peer's bytes not yet delivered, and how the coming reads will turn out. */
  class Socket {
    var stream: seq<u8>
    var plan: seq<nat>
    ghost var zeroReads: nat

    constructor (stream: seq<u8>, plan: seq<nat>)
      ensures this.stream == stream && this.plan == plan && zeroReads == 0
    {
      this.stream := stream;
      this.plan := plan;
      zeroReads := 0;
    }

    method Read(buf: array<u8>, at: nat, size: nat) returns (ok: bool, nread: nat)
      requires at + size <= buf.Length
      modifies this, buf
      ensures nread <= size && nread <= |old(stream)| && (ok <==> 0 < nread)
      ensures buf[..] == old(buf[..at]) + old(stream)[..nread] + old(buf[at + nread..])
      ensures stream == old(stream)[nread..]
      ensures zeroReads == old(zeroReads) + if size == 0 then 1 else 0
      ensures nread == Delivered(size, old(plan), |old(stream)|) && plan == PlanAfter(size, old(plan))
    {
      nread := if size == 0 || plan == [] then 0 else Min(plan[0], Min(size, |stream|));
      forall k | 0 <= k < nread {
        buf[at + k] := stream[k];
      }
      ok := 0 < nread;
      zeroReads := zeroReads + if size == 0 then 1 else 0;
      if plan != [] && size != 0 {
        plan := plan[1..];
      }
      stream := stream[nread..];
    }
  }

  class RecvBuffer {
    var buffer: array<u8>
    var bufferSize: nat
    var curr: nat
    var end: nat
    ghost var consumed: seq<u8>
    ghost var received: seq<u8>

    /** What was received is what was consumed followed by what is still unread. */
    ghost predicate Valid()
      reads this, buffer
    {
      && buffer.Length == bufferSize
      && curr <= end <= bufferSize <= MAX_SOCKET_BUFFER && DEFAULT_RECV_BUFFER_SIZE <= bufferSize
      && received == consumed + buffer[curr..end]
    }

    ghost function Unread(): seq<u8>
      requires Valid()
      reads this, buffer
    {
      buffer[curr..end]
    }

    /** Where the buffer and its socket stand. */
    ghost function Stand(io: Socket): Link
      reads this, io
    {
      Link(bufferSize, curr, end, io.plan, |io.stream|)
    }

    constructor ()
      ensures Valid() && Unread() == [] && consumed == [] && fresh(buffer)
      ensures bufferSize == DEFAULT_RECV_BUFFER_SIZE && curr == 0
    {
      buffer := new u8[DEFAULT_RECV_BUFFER_SIZE];
      bufferSize := DEFAULT_RECV_BUFFER_SIZE;
      curr, end := 0, 0;
      consumed, received := [], [];
    }

    method SetBuffer(size: int)
      requires Valid()
      modifies this
      ensures Valid() && Unread() == old(Unread()) && consumed == old(consumed) && received == old(received)
      ensures curr == old(curr) && end == old(end)
      ensures bufferSize == if old(bufferSize) < size <= MAX_SOCKET_BUFFER then size else old(bufferSize)
      ensures buffer == old(buffer) || fresh(buffer)
    {
      if size > MAX_SOCKET_BUFFER {
        return;
      }
      var resized := Min(size, MAX_SOCKET_BUFFER);
      if resized <= bufferSize {
        return;
      }
      var enlarged := new u8[resized];
      forall k | 0 <= k < bufferSize {
        enlarged[k] := buffer[k];
      }
      assert enlarged[curr..end] == buffer[curr..end];
      buffer := enlarged;
      bufferSize := resized;
    }

    method ReadNBytes(size: nat) returns (bytes: seq<u8>)
      requires Valid() && size <= |Unread()|
      modifies this
      ensures Valid() && buffer == old(buffer) && received == old(received)
      ensures bytes == old(Unread())[..size] && Unread() == old(Unread())[size..]
      ensures consumed == old(consumed) + bytes
      ensures curr == old(curr) + size && end == old(end) && bufferSize == old(bufferSize)
    {
      bytes := buffer[curr..curr + size];
      assert buffer[curr..end] == bytes + buffer[curr + size..end];
      curr := curr + size;
      consumed := consumed + bytes;
    }

    method Skip(size: nat)
      requires Valid() && size <= |Unread()|
      modifies this
      ensures Valid() && buffer == old(buffer) && received == old(received)
      ensures Unread() == old(Unread())[size..] && consumed == old(consumed) + old(Unread())[..size]
    {
      var skipped := ReadNBytes(size);
    }

    /** Moves the unread bytes to the front. */
    method Compact()
      requires Valid()
      modifies this, buffer
      ensures Valid() && Unread() == old(Unread()) && consumed == old(consumed) && received == old(received)
      ensures buffer == old(buffer) && bufferSize == old(bufferSize)
      ensures curr == 0 && end == old(end) - old(curr)
    {
      var count := end - curr;
      ghost var unread := Unread();
      forall k | 0 <= k < count {
        buffer[k] := buffer[curr + k];
      }
      curr := 0;
      end := count;
      assert buffer[curr..end] == unread;
    }

    /** The loop of `fill_buffer`: it may read no more than `space` bytes in all. */
    method ReadUntil(io: Socket, size: nat, space: nat) returns (ok: bool)
      requires Valid() && end + space <= bufferSize
      modifies this, buffer, io
      ensures Valid() && buffer == old(buffer) && consumed == old(consumed)
      ensures old(received) <= received && received + io.stream == old(received) + old(io.stream)
      ensures ok <==> size <= |Unread()|
      ensures Stand(io) == Drained(old(Stand(io)), size - old(end - curr), space)
      ensures size <= old(end - curr) + space ==> io.zeroReads == old(io.zeroReads)
    {
      var free := space;
      ghost var goal := Drained(Stand(io), size - (end - curr), space);
      ok := true;
      while end - curr < size
        invariant Valid() && buffer == old(buffer) && consumed == old(consumed) && end + free <= bufferSize
        invariant end - curr + free == old(end - curr) + space
        invariant old(received) <= received && received + io.stream == old(received) + old(io.stream)
        invariant goal == Drained(Stand(io), size - (end - curr), free)
        invariant size <= old(end - curr) + space ==> io.zeroReads == old(io.zeroReads)
        decreases size - (end - curr)
      {
        DrainedStep(Stand(io), size - (end - curr), free);
        var nread;
        ok, nread := ReadOnce(io, free);
        if !ok {
          return;
        }
        free := free - nread;
      }
    }

    /** One read behind the unread bytes. */
    method ReadOnce(io: Socket, free: nat) returns (ok: bool, nread: nat)
      requires Valid() && end + free <= bufferSize
      modifies this, buffer, io
      ensures Valid() && buffer == old(buffer) && consumed == old(consumed)
      ensures nread == Delivered(free, old(io.plan), |old(io.stream)|) && (ok <==> 0 < nread)
      ensures Stand(io) == AfterRead(old(Stand(io)), free) && curr == old(curr)
      ensures old(received) <= received && received + io.stream == old(received) + old(io.stream)
      ensures io.zeroReads == old(io.zeroReads) + if free == 0 then 1 else 0
    {
      ghost var was, sent := Unread(), io.stream;
      ok, nread := io.Read(buffer, end, free);
      assert buffer[curr..end + nread] == was + sent[..nread];
      end := end + nread;
      received := received + sent[..nread];
    }

    /**
     Resets or compacts the buffer. The space behind the unread bytes is measured before an empty
     buffer is reset, so it only has the space at its old end.
     */
    method Settle(ghost io: Socket, size: nat) returns (free: nat)
      requires Valid()
      modifies this, buffer
      ensures Valid() && Unread() == old(Unread()) && consumed == old(consumed) && received == old(received)
      ensures buffer == old(buffer) && (Stand(io), free) == Settled(old(Stand(io)), size)
    {
      var unread := end - curr;
      free := bufferSize - end;
      if unread == 0 {
        assert Unread() == [];
        curr, end := 0, 0;
        assert buffer[curr..end] == [];
      } else if free < size {
        Compact();
        free := bufferSize - end;
      }
    }

    /** Enlarges the buffer for a request first. */
    method MakeRoom(ghost io: Socket, size: nat) returns (free: nat)
      requires Valid() && |Unread()| < size
      modifies this, buffer
      ensures Valid() && Unread() == old(Unread()) && consumed == old(consumed) && received == old(received)
      ensures buffer == old(buffer) || fresh(buffer)
      ensures (Stand(io), free) == Prepared(old(Stand(io)), size) && end + free <= bufferSize
    {
      if bufferSize < size {
        SetBuffer(size);
      }
      free := Settle(io, size);
    }

    method FillUp(io: Socket, size: nat) returns (ok: bool)
      requires Valid()
      modifies this, buffer, io
      ensures Valid() && consumed == old(consumed) && (buffer == old(buffer) || fresh(buffer))
      ensures old(received) <= received && received + io.stream == old(received) + old(io.stream)
      ensures ok <==> size <= |Unread()|
      ensures Stand(io) == Filled(old(Stand(io)), size)
      ensures old(Stand(io)).CanHold(size) ==> io.zeroReads == old(io.zeroReads)
    {
      if end - curr >= size {
        return true;
      }
      ghost var stand := Stand(io);
      PreparedRoom(stand, size);
      var free := MakeRoom(io, size);
      assert Filled(stand, size) == Drained(Stand(io), size - (end - curr), free);
      ok := ReadUntil(io, size, free);
    }

    /** Makes `size` bytes available: succeeds if they can be held and the peer keeps delivering. */
    method FillBuffer(io: Socket, size: nat) returns (ok: bool)
      requires Valid()
      modifies this, buffer, io
      ensures Valid() && consumed == old(consumed) && (buffer == old(buffer) || fresh(buffer))
      ensures old(received) <= received && received + io.stream == old(received) + old(io.stream)
      ensures ok <==> size <= |Unread()|
      ensures Stand(io) == Filled(old(Stand(io)), size)
      ensures ok ==> old(Stand(io)).CanHold(size)
      ensures old(Stand(io)).CanHold(size) && old(Stand(io)).KeepsDelivering(size - old(end - curr)) ==> ok
      ensures old(Stand(io)).CanHold(size) ==> io.zeroReads == old(io.zeroReads)
    {
      FilledIff(Stand(io), size);
      ok := FillUp(io, size);
    }
  }
}
