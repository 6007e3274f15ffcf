/** Both ends of a connection: what is packed and sent on one side is what the other side reads back. */
module Delivery {
  import opened Words
  import opened Bytes
  import opened Streamers
  import opened RecvGeometry
  import opened RecvBuffers
  import opened Framing
  import opened Messages
  import opened Codecs

  /** The stream that the packed messages make up. */
  function StreamOf(ms: seq<Message>): seq<u8> {
    if ms == [] then [] else Packed(ms[0]) + StreamOf(ms[1..])
  }

  function FrameOf(m: Message): Frame {
    Frame(Tag(m), Body(m, []))
  }

  function FramesOf(ms: seq<Message>): (fs: seq<Frame>)
    ensures |fs| == |ms| && forall i :: 0 <= i < |ms| ==> fs[i] == FrameOf(ms[i])
  {
    if ms == [] then [] else [FrameOf(ms[0])] + FramesOf(ms[1..])
  }

  ghost predicate AllSendable(ms: seq<Message>) {
    forall i :: 0 <= i < |ms| ==> Sendable(ms[i])
  }

  /** Packing messages one after the other makes a stream of whole frames. */
  lemma {:induction false} StreamIsFrames(ms: seq<Message>)
    requires AllSendable(ms)
    ensures StreamOf(ms) == EncodeAll(FramesOf(ms)) && AllFramable(FramesOf(ms))
  {
    forall i | 0 <= i < |ms|
      ensures Framable(FrameOf(ms[i]))
    {
      ReserveIsExact(ms[i]);
    }
    if ms != [] {
      StreamIsFrames(ms[1..]);
      PackedIsFrame(ms[0], []);
      assert FramesOf(ms)[1..] == FramesOf(ms[1..]);
    }
  }

  method ParseFrame(f: Frame, ghost sent: Message) returns (m: Message)
    requires Sendable(sent) && f == FrameOf(sent)
    ensures m == sent
  {
    var read;
    m, read := ParseBody(f.kind, f.body, sent);
  }

  /** The handlers of the messages that the thread has dispatched. */
  method ParseAll(frames: seq<Frame>, ghost ms: seq<Message>) returns (got: seq<Message>)
    requires AllSendable(ms) && |frames| == |ms| && forall i :: 0 <= i < |ms| ==> frames[i] == FrameOf(ms[i])
    ensures got == ms
  {
    got := [];
    for i := 0 to |frames|
      invariant |got| == i && forall k :: 0 <= k < i ==> got[k] == ms[k]
    {
      var m := ParseFrame(frames[i], ms[i]);
      got := got + [m];
    }
  }

  lemma {:induction false} FramesFrom(ms: seq<Message>, n: nat)
    requires n <= |ms|
    ensures FramesOf(ms)[n..] == FramesOf(ms[n..])
  {
    if 0 < n {
      FramesFrom(ms[1..], n - 1);
      assert FramesOf(ms)[1..] == FramesOf(ms[1..]) && ms[1..][n - 1..] == ms[n..];
    } else {
      assert ms[0..] == ms;
    }
  }

  lemma {:induction false} FramesUpTo(ms: seq<Message>, n: nat)
    requires n <= |ms|
    ensures FramesOf(ms)[..n] == FramesOf(ms[..n])
  {
    if 0 < n {
      FramesUpTo(ms[1..], n - 1);
      assert FramesOf(ms)[1..] == FramesOf(ms[1..]) && ms[..n][1..] == ms[1..][..n - 1];
    }
  }

  lemma RestOfStream(ms: seq<Message>, n: nat)
    requires AllSendable(ms) && n <= |ms|
    ensures EncodeAll(FramesOf(ms)[n..]) == StreamOf(ms[n..])
  {
    FramesFrom(ms, n);
    StreamIsFrames(ms[n..]);
  }

  /** Dispatches the messages that come in. */
  method Dispatch(rcv: Receiver, turns: nat, ghost ms: seq<Message>) returns (count: nat, broken: bool)
    requires rcv.Valid() && AllSendable(ms) && rcv.Pending() == StreamOf(ms) && rcv.dispatched == []
    modifies rcv, rcv.buf, rcv.buf.buffer, rcv.io
    ensures rcv.Valid() && count <= |ms| && rcv.dispatched == FramesOf(ms)[..count]
    ensures !broken ==> rcv.Pending() == StreamOf(ms[count..])
    ensures FillsSucceed(old(rcv.Stand()), FramesOf(ms)) && |ms| <= turns ==> count == |ms| && !broken
  {
    StreamIsFrames(ms);
    var idle;
    count, idle, broken := rcv.ThreadLoop(turns, FramesOf(ms));
    RestOfStream(ms, count);
  }

  /**
   From writer to handler: however the reads cut the stream of the packed messages, the handlers
   get the first messages sent, unchanged and in order, and all of them if all fills succeed.
   */
  method Receive(rcv: Receiver, turns: nat, ghost ms: seq<Message>) returns (got: seq<Message>, broken: bool)
    requires rcv.Valid() && AllSendable(ms) && rcv.Pending() == StreamOf(ms) && rcv.dispatched == []
    modifies rcv, rcv.buf, rcv.buf.buffer, rcv.io
    ensures |got| <= |ms| && got == ms[..|got|]
    ensures rcv.Valid() && (!broken ==> rcv.Pending() == StreamOf(ms[|got|..]))
    ensures FillsSucceed(old(rcv.Stand()), FramesOf(ms)) && |ms| <= turns ==> got == ms && !broken
  {
    var count;
    count, broken := Dispatch(rcv, turns, ms);
    FramesUpTo(ms, count);
    got := ParseAll(rcv.dispatched, ms[..count]);
  }

  /** On a new connection, messages of together up to 131072 bytes get through every cut of the stream. */
  lemma ShortStreamArrives(ms: seq<Message>, plan: seq<nat>)
    requires AllSendable(ms) && |StreamOf(ms)| <= DEFAULT_RECV_BUFFER_SIZE
    requires |StreamOf(ms)| <= |plan| && forall i :: 0 <= i < |plan| ==> 0 < plan[i]
    ensures FillsSucceed(Link(DEFAULT_RECV_BUFFER_SIZE, 0, 0, plan, |StreamOf(ms)|), FramesOf(ms))
  {
    StreamIsFrames(ms);
    EncodedSize(FramesOf(ms));
    RoomForAll(Link(DEFAULT_RECV_BUFFER_SIZE, 0, 0, plan, |StreamOf(ms)|), FramesOf(ms));
  }
}
