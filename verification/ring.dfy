/**
 The buffer queue as a value: N slots, three indices and a flag that together must behave like
 a window over the last N of an unbounded sequence of writes.
 */
module Rings {
  import opened Words
  import opened Modular

  const MEDIA_BLOCK_SIZE: nat := 16384

  datatype BufferFlag = Writing | Reading | Available

  datatype Slot = Slot(flag: BufferFlag, blockId: int, blockSize: int, buffer: seq<u8>)

  datatype Ring = Ring(queueIndex: nat, minBlockId: int, minBlockIndex: nat, full: bool, slots: seq<Slot>) {
    predicate WellFormed() {
      queueIndex < |slots| && minBlockIndex < |slots|
    }
  }

  /** One write of the capture server: the id it announces and the bytes it stores. */
  datatype Write = Write(id: int, data: seq<u8>)

  predicate Fits(w: Write) {
    |w.data| <= MEDIA_BLOCK_SIZE
  }

  predicate AllFit(ws: seq<Write>) {
    forall i :: 0 <= i < |ws| ==> Fits(ws[i])
  }

  // ---------------------------------------------------------------- operations

  /** The index after i in a ring of n slots: i + 1 reduced modulo n. */
  function Next(i: nat, n: nat): nat {
    if i + 1 == n then 0 else i + 1
  }

  function QueueBuffer(r: Ring): Ring
    requires r.WellFormed()
  {
    var marked := r.(slots := r.slots[r.queueIndex := r.slots[r.queueIndex].(flag := Writing)]);
    if r.full then
      marked.(minBlockId := r.minBlockId + 1, minBlockIndex := Next(r.queueIndex, |r.slots|))
    else
      marked
  }

  /** The writer copies its bytes over the front of the slot it was handed. */
  function FillSlot(r: Ring, data: seq<u8>): Ring
    requires r.WellFormed() && |data| <= |r.slots[r.queueIndex].buffer|
  {
    var slot := r.slots[r.queueIndex];
    r.(slots := r.slots[r.queueIndex := slot.(buffer := data + slot.buffer[|data|..])])
  }

  function UpdateAttr(r: Ring, id: int, flag: BufferFlag): Ring
    requires r.WellFormed()
  {
    var n := |r.slots|;
    r.(slots := r.slots[r.queueIndex := r.slots[r.queueIndex].(blockId := id, flag := flag)],
       full := r.full || r.queueIndex + 1 == n,
       queueIndex := Next(r.queueIndex, n))
  }

  /** The slot number that `dequeue_buffer` returns for a block id. */
  function Dequeue(r: Ring, id: int): (slot: Option<nat>)
    requires r.WellFormed()
    ensures slot.Some? ==> slot.value < |r.slots|
  {
    var n := |r.slots|;
    var size := if r.full then n else r.queueIndex;
    var offset := id - r.minBlockId;
    if offset < 0 || size <= offset then
      None
    else if offset < n - r.minBlockIndex then
      Some(r.minBlockIndex + offset)
    else
      Some(offset - (n - r.minBlockIndex))
  }

  /** A ring as `reserve_buffer` leaves it. */
  ghost predicate Reserved(r: Ring, n: nat) {
    && 1 <= n == |r.slots| && r.queueIndex == 0 && r.minBlockId == 0 && r.minBlockIndex == 0 && !r.full
    && Sized(r)
  }

  ghost predicate Sized(r: Ring) {
    forall i :: 0 <= i < |r.slots| ==> |r.slots[i].buffer| == r.slots[i].blockSize == MEDIA_BLOCK_SIZE
  }

  /** One complete write round. */
  function Round(r: Ring, w: Write): Ring
    requires r.WellFormed() && |w.data| <= |r.slots[r.queueIndex].buffer|
  {
    UpdateAttr(FillSlot(QueueBuffer(r), w.data), w.id, Available)
  }

  // ---------------------------------------------------------------- index arithmetic

  lemma NextIsRemainder(i: nat, n: nat)
    requires i < n
    ensures (i + 1) % n == Next(i, n)
  {
    RemainderUnique(n, if i + 1 == n then 1 else 0, Next(i, n), i + 1);
  }

  lemma {:induction false} SlotAdd(n: nat, a: nat, d: nat)
    requires 0 < n && d <= n
    ensures Residue(a + d, n) == if Residue(a, n) + d < n then Residue(a, n) + d else Residue(a, n) + d - n
  {
    if a >= n {
      SlotAdd(n, a - n, d);
    }
  }

  /** Ids less than a full turn apart use different slots; a full turn apart, the same one. */
  lemma {:induction false} SlotTurn(n: nat, a: nat, b: nat)
    requires 0 < n && a < b <= a + n
    ensures Residue(a, n) == Residue(b, n) <==> b == a + n
  {
    SlotAdd(n, a, b - a);
  }

  // ---------------------------------------------------------------- the window over the writes

  function Oldest(n: nat, k: nat): nat {
    if k < n then 0 else k - n
  }

  /** The slot of id holds write number id. */
  ghost predicate Holds(r: Ring, ws: seq<Write>, id: nat)
    requires id < |ws|
  {
    && 0 < |r.slots|
    && var slot := r.slots[Residue(id, |r.slots|)];
       slot.blockId == ws[id].id && ws[id].data <= slot.buffer && slot.flag == Available
  }

  /** After the writes ws, between rounds. */
  ghost predicate Window(r: Ring, ws: seq<Write>) {
    var n, k := |r.slots|, |ws|;
    && 0 < n && r.queueIndex == Residue(k, n) && (r.full <==> n <= k)
    && r.minBlockId == Oldest(n, k) && r.minBlockIndex == Residue(Oldest(n, k), n)
    && Sized(r)
    && forall id :: Oldest(n, k) <= id < k ==> Holds(r, ws, id)
  }

  lemma DequeueIndex(r: Ring, id: int)
    requires r.WellFormed() && 0 <= r.minBlockId && r.minBlockIndex == Residue(r.minBlockId, |r.slots|)
    ensures Dequeue(r, id).Some? ==> 0 <= id && Dequeue(r, id).value == Residue(id, |r.slots|)
  {
    var offset := id - r.minBlockId;
    if 0 <= offset < |r.slots| {
      SlotAdd(|r.slots|, r.minBlockId, offset);
    }
  }

  lemma RoundKeepsWindow(r: Ring, ws: seq<Write>, w: Write)
    requires Window(r, ws) && Fits(w)
    ensures r.WellFormed() && |w.data| <= |r.slots[r.queueIndex].buffer|
    ensures Window(Round(r, w), ws + [w])
    ensures |Round(r, w).slots| == |r.slots|
  {
    var n, k := |r.slots|, |ws|;
    var r' := Round(r, w);
    RoundIndices(r, ws, w);
    RoundSlots(r, ws, w);
    forall id | Oldest(n, k + 1) <= id < k + 1
      ensures Holds(r', ws + [w], id)
    {
      if id < k {
        SlotTurn(n, id, k);
        assert Holds(r, ws, id);
      }
    }
  }

  lemma NextOrdinal(n: nat, k: nat)
    requires 0 < n
    ensures Next(Residue(k, n), n) == Residue(k + 1, n)
    ensures n <= k ==> Residue(k + 1, n) == Residue(k + 1 - n, n)
  {
    SlotAdd(n, k, 1);
  }

  lemma RoundIndices(r: Ring, ws: seq<Write>, w: Write)
    requires Window(r, ws) && Fits(w)
    ensures r.WellFormed() && |w.data| <= |r.slots[r.queueIndex].buffer|
    ensures var n, k, r' := |r.slots|, |ws|, Round(r, w);
            && |r'.slots| == n && r'.queueIndex == Residue(k + 1, n) && (r'.full <==> n <= k + 1)
            && r'.minBlockId == Oldest(n, k + 1) && r'.minBlockIndex == Residue(Oldest(n, k + 1), n)
  {
    NextOrdinal(|r.slots|, |ws|);
  }

  lemma RoundSlots(r: Ring, ws: seq<Write>, w: Write)
    requires Window(r, ws) && Fits(w)
    ensures r.WellFormed() && |w.data| <= |r.slots[r.queueIndex].buffer|
    ensures var r' := Round(r, w);
            && Sized(r') && |r'.slots| == |r.slots|
            && (forall i :: 0 <= i < |r.slots| && i != r.queueIndex ==> r'.slots[i] == r.slots[i])
            && r'.slots[r.queueIndex].blockId == w.id
            && r'.slots[r.queueIndex].flag == Available
            && w.data <= r'.slots[r.queueIndex].buffer
  {
  }

  /** The state after a run of complete rounds. */
  function Run(r: Ring, ws: seq<Write>): Ring
    requires r.WellFormed()
    requires forall i :: 0 <= i < |r.slots| ==> |r.slots[i].buffer| == MEDIA_BLOCK_SIZE
    requires AllFit(ws)
    ensures Run(r, ws).WellFormed()
    ensures forall i :: 0 <= i < |Run(r, ws).slots| ==> |Run(r, ws).slots[i].buffer| == MEDIA_BLOCK_SIZE
  {
    if ws == [] then r else Round(Run(r, ws[..|ws| - 1]), ws[|ws| - 1])
  }

  lemma {:induction false} RunIsWindow(r: Ring, n: nat, ws: seq<Write>)
    requires Reserved(r, n) && AllFit(ws)
    ensures Window(Run(r, ws), ws) && |Run(r, ws).slots| == n
  {
    if ws != [] {
      var m := |ws| - 1;
      RunIsWindow(r, n, ws[..m]);
      RoundKeepsWindow(Run(r, ws[..m]), ws[..m], ws[m]);
      assert ws == ws[..m] + [ws[m]];
    }
  }

  /**
   The ring refines "the last N writes of a sequence": after k rounds an id is found exactly
   when it is one of the last N ordinals below k, in slot id mod N, with that write's bytes.
   */
  lemma SlidingWindow(r: Ring, n: nat, ws: seq<Write>, id: int)
    requires Reserved(r, n) && AllFit(ws)
    ensures var s := Run(r, ws);
            && (Dequeue(s, id).Some? <==> Max(0, |ws| - n) <= id < |ws|)
            && (Dequeue(s, id).Some? ==>
                  && Dequeue(s, id).value == Residue(id, n) < |s.slots|
                  && s.slots[Residue(id, n)].blockId == ws[id].id
                  && ws[id].data <= s.slots[Residue(id, n)].buffer)
  {
    RunIsWindow(r, n, ws);
    WindowLookup(Run(r, ws), ws, id);
  }

  lemma WindowLookup(s: Ring, ws: seq<Write>, id: int)
    requires Window(s, ws)
    ensures s.WellFormed()
    ensures Dequeue(s, id).Some? <==> Max(0, |ws| - |s.slots|) <= id < |ws|
    ensures Dequeue(s, id).Some? ==> Dequeue(s, id).value == Residue(id, |s.slots|) && Holds(s, ws, id)
  {
    DequeueIndex(s, id);
  }

  /** When the announced ids are the write ordinals, the slot found for an id carries that id. */
  lemma OrdinalIds(r: Ring, n: nat, ws: seq<Write>, id: int)
    requires Reserved(r, n) && AllFit(ws) && forall i :: 0 <= i < |ws| ==> ws[i].id == i
    ensures var s := Run(r, ws);
            Dequeue(s, id).Some? ==> Dequeue(s, id).value < |s.slots| && s.slots[Dequeue(s, id).value].blockId == id
  {
    SlidingWindow(r, n, ws, id);
  }

  // ---------------------------------------------------------------- the middle of a round

  /** After `queue_buffer` and any part of the copy, before `update_buffer_attr`. */
  function MidRound(r: Ring, partial: seq<u8>): Ring
    requires r.WellFormed() && |partial| <= |r.slots[r.queueIndex].buffer|
  {
    FillSlot(QueueBuffer(r), partial)
  }

  /**
   While a slot is being overwritten it answers to no id below k, every other id of the
   advertised window still finds its own slot, and once the ring has wrapped the id k in
   flight already resolves, to the half-written slot with the id of the write it replaces.
   */
  lemma WindowMidRound(r: Ring, ws: seq<Write>, partial: seq<u8>, id: int)
    requires Window(r, ws) && |partial| <= MEDIA_BLOCK_SIZE
    ensures r.WellFormed() && |partial| <= |r.slots[r.queueIndex].buffer|
    ensures var m, n, k := MidRound(r, partial), |r.slots|, |ws|;
            && m.WellFormed() && |m.slots| == n
            && (Dequeue(m, id).Some? <==> if k < n then 0 <= id < k else k - n < id <= k)
            && (Dequeue(m, id).Some? && id < k ==>
                  Dequeue(m, id).value == Residue(id, n) != m.queueIndex && Holds(m, ws, id))
            && (Dequeue(m, id).Some? && id == k ==>
                  && Dequeue(m, id).value == m.queueIndex
                  && m.slots[m.queueIndex].flag == Writing
                  && m.slots[m.queueIndex].blockId == ws[k - n].id)
  {
    MidRoundIndices(r, ws, partial);
    MidRoundSlots(r, ws, partial);
    var m, n, k := MidRound(r, partial), |r.slots|, |ws|;
    DequeueIndex(m, id);
    if 0 <= id < k && k - n < id {
      SlotTurn(n, id, k);
      assert Holds(r, ws, id);
    }
    if n <= k {
      SlotTurn(n, k - n, k);
      assert Holds(r, ws, k - n);
    }
  }

  lemma MidRoundIndices(r: Ring, ws: seq<Write>, partial: seq<u8>)
    requires Window(r, ws) && |partial| <= MEDIA_BLOCK_SIZE
    ensures r.WellFormed() && |partial| <= |r.slots[r.queueIndex].buffer|
    ensures var m, n, k := MidRound(r, partial), |r.slots|, |ws|;
            && m.WellFormed() && |m.slots| == n && m.queueIndex == Residue(k, n) && (m.full <==> n <= k)
            && m.minBlockId == (if k < n then 0 else k + 1 - n) && m.minBlockIndex == Residue(m.minBlockId, n)
            && (k < n ==> m.queueIndex == k)
  {
    NextOrdinal(|r.slots|, |ws|);
  }

  lemma MidRoundSlots(r: Ring, ws: seq<Write>, partial: seq<u8>)
    requires Window(r, ws) && |partial| <= MEDIA_BLOCK_SIZE
    ensures r.WellFormed() && |partial| <= |r.slots[r.queueIndex].buffer|
    ensures var m := MidRound(r, partial);
            && |m.slots| == |r.slots| && m.queueIndex == r.queueIndex
            && (forall i :: 0 <= i < |r.slots| && i != r.queueIndex ==> m.slots[i] == r.slots[i])
            && m.slots[r.queueIndex].blockId == r.slots[r.queueIndex].blockId
            && m.slots[r.queueIndex].flag == Writing
  {
  }

  // ---------------------------------------------------------------- what is advertised and kept

  /** The interval of ids, up to but not including the second, that `get_buffer_interval` reports. */
  function Advertised(r: Ring): (int, int) {
    (r.minBlockId, r.minBlockId + if r.full then |r.slots| else r.queueIndex)
  }

  /** Between rounds that is the last N of the ids so far; before the first write it is (0, 0). */
  lemma AdvertisedWindow(r: Ring, ws: seq<Write>)
    requires Window(r, ws)
    ensures Advertised(r) == (Max(0, |ws| - |r.slots|), |ws|)
  {
    SlotBelow(|ws|, |r.slots|);
  }

  /** In the middle of a round on a full ring it is one ahead. */
  lemma AdvertisedMidRound(r: Ring, ws: seq<Write>, partial: seq<u8>)
    requires Window(r, ws) && |partial| <= MEDIA_BLOCK_SIZE
    ensures r.WellFormed() && |partial| <= |r.slots[r.queueIndex].buffer|
    ensures var n, k := |r.slots|, |ws|;
            Advertised(MidRound(r, partial)) == if k < n then (0, k) else (k - n + 1, k + 1)
  {
    MidRoundIndices(r, ws, partial);
  }

  lemma AdvertisedReserved(r: Ring, n: nat)
    requires Reserved(r, n)
    ensures Advertised(r) == (0, 0)
  {
  }

  lemma SlotBelow(k: nat, n: nat)
    requires 0 < n
    ensures k < n ==> Residue(k, n) == k
  {
  }

  /** A write covers the front of its slot and leaves the bytes behind as they were; no other slot changes. */
  lemma RoundBytes(r: Ring, w: Write, i: nat)
    requires r.WellFormed() && |w.data| <= |r.slots[r.queueIndex].buffer| && i < |r.slots|
    ensures var was, now := r.slots[i], Round(r, w).slots[i];
            && (i != r.queueIndex ==> now == was)
            && (i == r.queueIndex ==>
                  && now.flag == Available && now.blockId == w.id && now.blockSize == was.blockSize
                  && |now.buffer| == |was.buffer|
                  && (forall k :: 0 <= k < |w.data| ==> now.buffer[k] == w.data[k])
                  && (forall k :: |w.data| <= k < |was.buffer| ==> now.buffer[k] == was.buffer[k]))
  {
  }
}
