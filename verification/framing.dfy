/**
 Message framing on a TCP stream: |size (4 bytes, of the whole message)|type (1 byte)|body|.
 What is dispatched depends on the bytes of the stream only, never on how reads cut them up.
 */
module Framing {
  import opened Words
  import opened Bytes
  import opened RecvGeometry
  import opened RecvBuffers
  import opened Turning

  datatype Frame = Frame(kind: u8, body: seq<u8>)

  // ---------------------------------------------------------------- the wire format

  const HEADER: nat := 5

  ghost predicate Framable(f: Frame) {
    HEADER + |f.body| <= 0x7fff_ffff
  }

  function Encode(f: Frame): seq<u8> {
    Le(HEADER + |f.body|, 4) + [f.kind] + f.body
  }

  function EncodeAll(fs: seq<Frame>): seq<u8> {
    if fs == [] then [] else Encode(fs[0]) + EncodeAll(fs[1..])
  }

  /** The size field, a signed 32-bit number in the source. */
  function SizeField(b: seq<u8>): int
    requires |b| == 4
  {
    Widths();
    AsInt32(FromLe(b))
  }

  /** The first message of a stream, if it is there in full, and its length. */
  function FirstFrame(stream: seq<u8>): Option<(Frame, nat)> {
    if |stream| < 4 then
      None
    else
      var size := SizeField(stream[..4]);
      if size < HEADER || |stream| < size then None else Some((Frame(stream[4], stream[HEADER..size]), size))
  }

  lemma FirstFrameOfEncoding(f: Frame, rest: seq<u8>)
    requires Framable(f)
    ensures FirstFrame(Encode(f) + rest) == Some((f, |Encode(f)|))
    ensures (Encode(f) + rest)[|Encode(f)|..] == rest
  {
    var n := HEADER + |f.body|;
    Widths();
    FromLeOfLe(n, 4);
    assert (Encode(f) + rest)[..4] == Le(n, 4);
    assert (Encode(f) + rest)[HEADER..n] == f.body;
  }

  // ---------------------------------------------------------------- turns, without the bytes

  type SoundLink = l: Link | l.Sound() witness Link(DEFAULT_RECV_BUFFER_SIZE, 0, 0, [], 0)

  /** The rest of a message of the given size, once its size field has been read. */
  function Rest(l: SoundLink, size: int): (Outcome, SoundLink) {
    if size < HEADER then
      (Broken, l)
    else
      var c := Filled(l, size - 4);
      if c.Unread() < size - 4 then (Broken, c) else (Dispatched, Consumed(c, size - 4))
  }

  /** One turn of `loop`, for a stream that announces a message of the given size. */
  function Turn(l: SoundLink, size: int): (Outcome, SoundLink) {
    var a := Filled(l, 4);
    if a.Unread() < 4 then (Idle, a) else Rest(Consumed(a, 4), size)
  }

  ghost predicate IsTurn(step: Step<SoundLink>) {
    forall l: SoundLink, size: int {:trigger Turn(l, size)} :: step(l, size) == Turn(l, size)
  }

  function FrameSize(f: Frame): nat {
    HEADER + |f.body|
  }

  function SizesOf(fs: seq<Frame>): (sizes: seq<nat>)
    ensures |sizes| == |fs| && forall i :: 0 <= i < |fs| ==> sizes[i] == FrameSize(fs[i])
  {
    seq(|fs|, i requires 0 <= i < |fs| => FrameSize(fs[i]))
  }

  lemma {:induction false} EncodedSize(fs: seq<Frame>)
    ensures |EncodeAll(fs)| == Total(SizesOf(fs))
  {
    if fs != [] {
      EncodedSize(fs[1..]);
      assert SizesOf(fs)[1..] == SizesOf(fs[1..]);
    }
  }

  /** Both requests for a message, the size field and the rest, can be filled. */
  predicate Fills(l: SoundLink, size: nat)
    requires HEADER <= size
  {
    && 4 <= Filled(l, 4).Unread()
    && size - 4 <= Filled(Consumed(Filled(l, 4), 4), size - 4).Unread()
  }

  /** A turn dispatches the next message exactly if its fills succeed. */
  lemma TurnDispatches(l: SoundLink, size: nat)
    requires HEADER <= size
    ensures Turn(l, size).0.Dispatched? <==> Fills(l, size)
  {
  }

  /** The requests for all messages can be filled, one after the other. */
  predicate FillsSucceed(l: SoundLink, fs: seq<Frame>) {
    AllDispatch(Turn, l, SizesOf(fs))
  }

  /** Fills succeed for a stream exactly if they do for its first message and then for the others. */
  lemma FillsSucceedStep(l: SoundLink, fs: seq<Frame>)
    requires fs != []
    ensures FillsSucceed(l, fs) <==> Fills(l, FrameSize(fs[0])) && FillsSucceed(Turn(l, FrameSize(fs[0])).1, fs[1..])
  {
    TurnDispatches(l, FrameSize(fs[0]));
    assert SizesOf(fs)[1..] == SizesOf(fs[1..]);
  }

  /** The first n turns dispatch the first n messages exactly if the fills for them succeed. */
  lemma {:induction false} FramesDispatchedIff(l: SoundLink, fs: seq<Frame>, n: nat)
    requires n <= |fs|
    ensures Turns(Turn, l, SizesOf(fs), n).count == n <==> FillsSucceed(l, fs[..n])
  {
    DispatchedIff(Turn, l, SizesOf(fs), n);
    assert SizesOf(fs)[..n] == SizesOf(fs[..n]);
  }

  lemma TurnsRun()
    ensures Runs(Turn, (l: SoundLink) => l.Total())
  {
  }

  /** Given turns enough, all messages are dispatched if their fills succeed. */
  lemma AllDispatched(l: SoundLink, fs: seq<Frame>, n: nat)
    requires l.Total() == |EncodeAll(fs)| && |fs| <= n
    ensures FillsSucceed(l, fs) ==>
              Turns(Turn, l, SizesOf(fs), n).count == |fs| && !Turns(Turn, l, SizesOf(fs), n).broken
  {
    TurnsRun();
    EncodedSize(fs);
    if FillsSucceed(l, fs) {
      FurtherTurns(Turn, (k: SoundLink) => k.Total(), l, SizesOf(fs), n);
    }
  }

  // ---------------------------------------------------------------- when the fills succeed

  /** The rest of a message cannot be held behind its size field, which begins at `start` with u bytes unread. */
  predicate RestTooLong(l: Link, start: nat, u: nat, size: nat) {
    && u < size
    && (if 4 < u then
          MAX_SOCKET_BUFFER < size - 4
        else
          var big := if l.size < size - 4 <= MAX_SOCKET_BUFFER then size - 4 else l.size;
          big < start + size)
  }

  /**
   While the peer delivers, a turn idles exactly if nothing is unread and fewer than four bytes fit
   behind the end. It breaks exactly if not all of the message came with the size field, and the
   rest is longer than any buffer or, if none of it came along, than the space behind that field.
   */
  lemma TurnBreaksIff(l: SoundLink, size: nat)
    requires Delivers(l) && HEADER <= size <= l.Total()
    ensures Turn(l, size).0.Idle? <==> l.curr == l.end && l.size - l.end < 4
    ensures !Turn(l, size).0.Idle? ==> exists u :: UnreadAfter(l, 4, u)
    ensures forall u :: UnreadAfter(l, 4, u) && !Turn(l, size).0.Idle? ==>
              (Turn(l, size).0.Broken? <==> RestTooLong(l, StartAfter(l, 4), u, size))
  {
    FilledWhileDelivering(l, 4);
    if l.CanHold(4) {
      FilledStand(l, 4);
      FilledSize(l, 4);
      RestBreaksIff(l, Consumed(Filled(l, 4), 4), size);
    }
  }

  /** The part of a turn behind the size field, which l was asked for. */
  lemma RestBreaksIff(l: SoundLink, b: SoundLink, size: nat)
    requires Delivers(b) && HEADER <= size <= b.Total() + 4 && b.size == l.size && 4 <= b.curr
    ensures Rest(b, size).0.Broken? <==> RestTooLong(l, b.curr - 4, b.Unread() + 4, size)
    ensures !Rest(b, size).0.Idle?
  {
    FilledWhileDelivering(b, size - 4);
  }

  lemma FilledSize(l: SoundLink, request: nat)
    requires request <= DEFAULT_RECV_BUFFER_SIZE
    ensures Filled(l, request).size == l.size
  {
  }

  /**
   Part of a size field at the very end of the buffer is moved to the front, so that it leaves room
   for a message of the buffer's size.
   */
  lemma StraddlingSizeField(l: SoundLink, size: nat)
    requires Delivers(l) && HEADER <= size <= l.Total() && size <= l.size
    requires 0 < l.end - l.curr < 4 && l.size - l.end < 4
    ensures Turn(l, size).0.Dispatched?
  {
    TurnBreaksIff(l, size);
    var u :| UnreadAfter(l, 4, u);
    assert StartAfter(l, 4) == 0;
  }

  /** While the peer delivers, an idle turn has made room for the size field. */
  lemma IdleOnlyOnce(l: SoundLink, size: nat, size': nat)
    requires Delivers(l) && 4 <= l.Total() && Turn(l, size).0.Idle?
    ensures !Turn(Turn(l, size).1, size').0.Idle?
  {
    var a := Filled(l, 4);
    FilledWhileDelivering(l, 4);
    FilledWhileDelivering(a, 4);
  }

  lemma RoomForRest(l: SoundLink, size: nat)
    requires Delivers(l) && RestFits(l) && HEADER <= size <= l.Total() + 4
    ensures var t := Rest(l, size);
            t.0.Dispatched? && Delivers(t.1) && RestFits(t.1) && t.1.Total() == l.Total() + 4 - size
  {
    RoomForRequest(l, size - 4);
  }

  lemma RoomForNext(l: SoundLink, size: nat)
    requires Delivers(l) && RestFits(l) && HEADER <= size <= l.Total()
    ensures var t := Turn(l, size);
            t.0.Dispatched? && Delivers(t.1) && RestFits(t.1) && t.1.Total() == l.Total() - size
  {
    RoomForRequest(l, 4);
    RoomForRest(Consumed(Filled(l, 4), 4), size);
  }

  /** If the whole stream fits behind what is there and the peer delivers it, every message gets through. */
  lemma {:induction false} RoomForAll(l: SoundLink, fs: seq<Frame>)
    requires Delivers(l) && RestFits(l) && l.Total() == |EncodeAll(fs)|
    ensures FillsSucceed(l, fs)
    decreases |fs|
  {
    if fs != [] {
      RoomForNext(l, FrameSize(fs[0]));
      TurnDispatches(l, FrameSize(fs[0]));
      RoomForAll(Turn(l, FrameSize(fs[0])).1, fs[1..]);
      FillsSucceedStep(l, fs);
    }
  }

  /**
   A cut that breaks a stream although the peer delivers all of it: the first read of a new
   connection fills the buffer, and its last four bytes are the second message's size field.
   */
  lemma CutBehindSizeField(f: Frame, g: Frame, plan: seq<nat>)
    requires |Encode(f)| == DEFAULT_RECV_BUFFER_SIZE - 4
    requires |Encode(g)| <= DEFAULT_RECV_BUFFER_SIZE
    requires plan != [] && DEFAULT_RECV_BUFFER_SIZE <= plan[0]
    ensures var l: SoundLink := Link(DEFAULT_RECV_BUFFER_SIZE, 0, 0, plan, |EncodeAll([f, g])|);
            var p := Turns<SoundLink>(Turn, l, SizesOf([f, g]), 2);
            p.broken && p.count == 1
  {
    var total := |EncodeAll([f, g])|;
    EncodedSize([f, g]);
    assert SizesOf([f, g]) == [FrameSize(f), FrameSize(g)] && [FrameSize(f), FrameSize(g)][1..] == [FrameSize(g)];
    var l: SoundLink := Link(DEFAULT_RECV_BUFFER_SIZE, 0, 0, plan, total);
    var rest := plan[1..];
    assert Drain(4, DEFAULT_RECV_BUFFER_SIZE, plan, total) == (DEFAULT_RECV_BUFFER_SIZE, rest);
    var full := Link(DEFAULT_RECV_BUFFER_SIZE, 0, DEFAULT_RECV_BUFFER_SIZE, rest, total - DEFAULT_RECV_BUFFER_SIZE);
    assert Filled(l, 4) == full;
    var next: SoundLink := Consumed(full, DEFAULT_RECV_BUFFER_SIZE - 4);
    assert Turn(l, FrameSize(f)) == (Dispatched, next);
    assert Filled(next, 4) == next;
    assert Turn(next, FrameSize(g)).0.Broken?;
    assert Turns<SoundLink>(Turn, next, [FrameSize(g)], 1) == Progress(0, 0, true, Turn(next, FrameSize(g)).1);
  }

  // ---------------------------------------------------------------- the receiving thread

  class Receiver {
    const io: Socket
    const buf: RecvBuffer
    /** The messages handed on, in order. */
    var dispatched: seq<Frame>

    ghost predicate Valid()
      reads this, buf, buf.buffer
    {
      buf.Valid()
    }

    /** All bytes received but not consumed, and those still under way. */
    ghost function Pending(): seq<u8>
      requires Valid()
      reads this, io, buf, buf.buffer
    {
      buf.Unread() + io.stream
    }

    ghost function Stand(): (l: SoundLink)
      requires Valid()
      reads this, io, buf, buf.buffer
      ensures l.Total() == |Pending()|
    {
      buf.Stand(io)
    }

    constructor (io: Socket)
      ensures Valid() && fresh(buf) && fresh(buf.buffer) && this.io == io
      ensures dispatched == [] && Pending() == io.stream
      ensures Stand() == Link(DEFAULT_RECV_BUFFER_SIZE, 0, 0, io.plan, |io.stream|)
    {
      this.io := io;
      buf := new RecvBuffer();
      dispatched := [];
    }

    /** Fills the buffer without changing what is pending. */
    method Fill(size: nat) returns (ok: bool)
      requires Valid()
      modifies buf, buf.buffer, io
      ensures Valid() && Pending() == old(Pending()) && (buf.buffer == old(buf.buffer) || fresh(buf.buffer))
      ensures ok <==> size <= |buf.Unread()|
      ensures Stand() == Filled(old(Stand()), size)
      ensures ok ==> old(Stand()).CanHold(size)
      ensures old(Stand()).CanHold(size) && old(Stand()).KeepsDelivering(size - old(Stand()).Unread()) ==> ok
    {
      ghost var consumed, received, unread := buf.consumed, buf.received, buf.Unread();
      label Before:
      ok := buf.FillBuffer(io, size);
      assert consumed + Pending() == buf.received + io.stream;
      assert consumed + old@Before(Pending()) == received + old@Before(io.stream);
      assert (consumed + Pending())[|consumed|..] == Pending();
      assert (consumed + old@Before(Pending()))[|consumed|..] == old@Before(Pending());
    }

    method Take(size: nat) returns (bytes: seq<u8>)
      requires Valid() && size <= |buf.Unread()|
      modifies buf
      ensures Valid() && buf.buffer == old(buf.buffer)
      ensures bytes == old(Pending())[..size] && Pending() == old(Pending())[size..]
      ensures Stand() == Consumed(old(Stand()), size)
    {
      bytes := buf.ReadNBytes(size);
    }

    /** The size that the pending bytes announce. */
    ghost function Announced(): int
      requires Valid()
      reads this, io, buf, buf.buffer
    {
      if |Pending()| < 4 then 0 else SizeField(Pending()[..4])
    }

    /** Reads so many bytes, or none if they could not be had. */
    method Request(size: nat) returns (ok: bool, bytes: seq<u8>)
      requires Valid()
      modifies buf, buf.buffer, io
      ensures Valid() && (buf.buffer == old(buf.buffer) || fresh(buf.buffer))
      ensures ok <==> size <= Filled(old(Stand()), size).Unread()
      ensures Stand() == if ok then Consumed(Filled(old(Stand()), size), size) else Filled(old(Stand()), size)
      ensures ok ==> size <= |old(Pending())| && bytes == old(Pending())[..size]
      ensures Pending() == if ok then old(Pending())[size..] else old(Pending())
    {
      bytes := [];
      ok := Fill(size);
      if ok {
        bytes := Take(size);
      }
    }

    /** Reads the rest of a message whose size field was just read. */
    method ReadRest(size: int) returns (outcome: Outcome, rest: seq<u8>)
      requires Valid()
      modifies buf, buf.buffer, io
      ensures Valid() && (buf.buffer == old(buf.buffer) || fresh(buf.buffer))
      ensures (outcome, Stand()) == Rest(old(Stand()), size)
      ensures outcome.Dispatched? ==>
                && HEADER <= size && size - 4 <= |old(Pending())|
                && rest == old(Pending())[..size - 4] && Pending() == old(Pending())[size - 4..]
    {
      if size < HEADER {
        return Broken, [];
      }
      var ok;
      ok, rest := Request(size - 4);
      outcome := if ok then Dispatched else Broken;
    }

    /** One turn of `loop`: at most one message is taken off the stream and dispatched. */
    method Loop() returns (outcome: Outcome)
      requires Valid()
      modifies this, buf, buf.buffer, io
      ensures Valid() && (buf.buffer == old(buf.buffer) || fresh(buf.buffer))
      ensures (outcome, Stand()) == Turn(old(Stand()), old(Announced()))
      ensures outcome.Idle? ==> dispatched == old(dispatched) && Pending() == old(Pending())
      ensures outcome.Broken? ==> dispatched == old(dispatched)
      ensures outcome.Dispatched? ==>
                && FirstFrame(old(Pending())).Some?
                && dispatched == old(dispatched) + [FirstFrame(old(Pending())).value.0]
                && Pending() == old(Pending())[FirstFrame(old(Pending())).value.1..]
    {
      ghost var pending := Pending();
      var ok, temp := Request(4);
      if !ok {
        return Idle;
      }
      var size := SizeField(temp);
      outcome, temp := ReadRest(size);
      if outcome.Dispatched? {
        FrameAt(pending, size, temp);
        dispatched := dispatched + [Frame(temp[0], temp[1..])];
      }
    }

    /** One turn on a stream of whole messages. */
    method NextTurn(ghost step: Step<SoundLink>, ghost fs: seq<Frame>) returns (outcome: Outcome)
      requires IsTurn(step) && Valid() && Pending() == EncodeAll(fs) && AllFramable(fs)
      modifies this, buf, buf.buffer, io
      ensures Valid() && (buf.buffer == old(buf.buffer) || fresh(buf.buffer))
      ensures (outcome, Stand()) == step(old(Stand()), NextSize(SizesOf(fs)))
      ensures outcome.Idle? ==> dispatched == old(dispatched) && Pending() == EncodeAll(fs)
      ensures outcome.Broken? ==> dispatched == old(dispatched)
      ensures outcome.Dispatched? ==>
                fs != [] && dispatched == old(dispatched) + [fs[0]] && Pending() == EncodeAll(fs[1..])
    {
      Upcoming(fs);
      outcome := Loop();
    }

    /** After count dispatches and some idle turns, the turns left make up the whole progress. */
    ghost predicate OnTrack(step: Step<SoundLink>, before: seq<Frame>, fs: seq<Frame>, all: Progress<SoundLink>,
                            turns: nat, count: nat, idle: nat)
      reads this, io, buf, buf.buffer
    {
      && Valid() && count <= |fs| && count + idle <= turns
      && dispatched == before + fs[..count] && Pending() == EncodeAll(fs[count..]) && AllFramable(fs)
      && all == Later(Turns(step, Stand(), SizesOf(fs[count..]), turns - count - idle), count, idle)
    }

    method TrackedTurn(ghost step: Step<SoundLink>, ghost before: seq<Frame>, ghost fs: seq<Frame>,
                       ghost all: Progress<SoundLink>, ghost turns: nat, count: nat, idle: nat)
      returns (outcome: Outcome, count': nat, idle': nat)
      requires IsTurn(step) && OnTrack(step, before, fs, all, turns, count, idle) && count + idle < turns
      modifies this, buf, buf.buffer, io
      ensures Valid() && (buf.buffer == old(buf.buffer) || fresh(buf.buffer))
      ensures outcome.Broken? ==>
                && count' == count && idle' == idle && dispatched == old(dispatched)
                && all == Progress(count, idle, true, Stand())
      ensures !outcome.Broken? ==>
                count' + idle' == count + idle + 1 && OnTrack(step, before, fs, all, turns, count', idle')
    {
      LaterStep(step, all, Stand(), SizesOf(fs[count..]), turns - count - idle, count, idle);
      outcome := NextTurn(step, fs[count..]);
      count', idle' := count, idle;
      if outcome.Idle? {
        idle' := idle + 1;
      } else if outcome.Dispatched? {
        SliceStep(before, fs, count);
        count' := count + 1;
      }
    }

    /**
     The thread's loop over a stream of whole messages: whatever sizes the reads had, the messages
     dispatched are the first ones sent, in order, and the rest of the stream is still pending. All
     of them are dispatched, given that many turns, if all fills succeed.
     */
    method ThreadLoop(turns: nat, ghost fs: seq<Frame>) returns (count: nat, idle: nat, broken: bool)
      requires Valid() && Pending() == EncodeAll(fs) && AllFramable(fs)
      modifies this, buf, buf.buffer, io
      ensures Valid() && count <= |fs|
      ensures Progress(count, idle, broken, Stand()) == Turns(Turn, old(Stand()), SizesOf(fs), turns)
      ensures dispatched == old(dispatched) + fs[..count]
      ensures !broken ==> Pending() == EncodeAll(fs[count..]) && count + idle == turns
      ensures FillsSucceed(old(Stand()), fs) && |fs| <= turns ==> count == |fs| && !broken
    {
      ghost var step: Step<SoundLink> := Turn;
      ghost var all := Turns(step, Stand(), SizesOf(fs), turns);
      if |fs| <= turns {
        AllDispatched(Stand(), fs, turns);
      }
      ghost var before := dispatched;
      count, idle, broken := 0, 0, false;
      assert fs[0..] == fs && before + fs[..0] == before;
      while count + idle < turns && !broken
        invariant count + idle <= turns && count <= |fs| && (buf.buffer == old(buf.buffer) || fresh(buf.buffer))
        invariant !broken ==> OnTrack(step, before, fs, all, turns, count, idle)
        invariant broken ==>
                    Valid() && dispatched == before + fs[..count] && all == Progress(count, idle, true, Stand())
        decreases turns - count - idle, !broken
      {
        var outcome;
        outcome, count, idle := TrackedTurn(step, before, fs, all, turns, count, idle);
        broken := outcome.Broken?;
      }
    }
  }

  ghost predicate AllFramable(fs: seq<Frame>) {
    forall i :: 0 <= i < |fs| ==> Framable(fs[i])
  }

  lemma SliceStep(before: seq<Frame>, fs: seq<Frame>, count: nat)
    requires count < |fs|
    ensures fs[count..][1..] == fs[count + 1..] && SizesOf(fs[count..])[1..] == SizesOf(fs[count + 1..])
    ensures before + fs[..count] + [fs[count..][0]] == before + fs[..count + 1]
  {
  }

  /** What the stream of whole messages announces. */
  lemma Upcoming(fs: seq<Frame>)
    requires AllFramable(fs)
    ensures fs != [] ==>
              var stream := EncodeAll(fs);
              && FirstFrame(stream) == Some((fs[0], FrameSize(fs[0])))
              && stream[FrameSize(fs[0])..] == EncodeAll(fs[1..])
              && 4 <= |stream| && SizeField(stream[..4]) == FrameSize(fs[0])
  {
    if fs != [] {
      FirstFrameOfEncoding(fs[0], EncodeAll(fs[1..]));
    }
  }

  lemma FrameAt(stream: seq<u8>, size: nat, rest: seq<u8>)
    requires HEADER <= size <= |stream| && SizeField(stream[..4]) == size && rest == stream[4..][..size - 4]
    ensures FirstFrame(stream) == Some((Frame(rest[0], rest[1..]), size))
    ensures stream[4..][size - 4..] == stream[size..]
  {
    assert rest[1..] == stream[HEADER..size];
  }
}
