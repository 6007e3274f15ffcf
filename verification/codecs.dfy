/** `RsMessage::pack`, the `pack_submsg` writers and the `parse` readers. */
module Codecs {
  import opened Words
  import opened Bytes
  import opened Streamers
  import opened Framing
  import opened Messages

  // ---------------------------------------------------------------- writers

  lemma NextItemFits(w: nat, i: nat, n: nat)
    requires i < n
    ensures w * (i + 1) == w * i + w <= w * n
  {
    assert w * n == w * (i + 1) + w * (n - i - 1);
  }

  method WriteItems(s: Streamer, items: seq<seq<u8>>, w: nat)
    requires s.Valid() && w * |items| <= |s.Rest()|
    requires forall i :: 0 <= i < |items| ==> |items[i]| == w
    modifies s, s.base
    ensures s.Valid() && s.base == old(s.base) && |s.Rest()| == old(|s.Rest()|) - w * |items|
    ensures forall r {:trigger Concat(items, r)} :: s.Written() + r == old(s.Written()) + Concat(items, r)
  {
    for i := 0 to |items|
      invariant s.Valid() && s.base == old(s.base) && |s.Rest()| == old(|s.Rest()|) - w * i
      invariant forall r {:trigger Concat(items, r)} ::
                  s.Written() + Concat(items[i..], r) == old(s.Written()) + Concat(items, r)
    {
      NextItemFits(w, i, |items|);
      ghost var before := s.Written();
      s.WriteNBytes(items[i]);
      forall r
        ensures s.Written() + Concat(items[i + 1..], r) == before + Concat(items[i..], r)
      {
        assert items[i..][1..] == items[i + 1..];
        assert Concat(items[i..], r) == items[i] + Concat(items[i + 1..], r);
      }
    }
  }

  method WriteResources(s: Streamer, rs: seq<Resource>)
    requires s.Valid() && 40 * |rs| <= |s.Rest()|
    modifies s, s.base
    ensures s.Valid() && s.base == old(s.base) && |s.Rest()| == old(|s.Rest()|) - 40 * |rs|
    ensures forall r {:trigger ResourceItems(rs, r)} :: s.Written() + r == old(s.Written()) + ResourceItems(rs, r)
  {
    for i := 0 to |rs|
      invariant s.Valid() && s.base == old(s.base) && |s.Rest()| == old(|s.Rest()|) - 40 * i
      invariant forall r {:trigger ResourceItems(rs, r)} ::
                  s.Written() + ResourceItems(rs[i..], r) == old(s.Written()) + ResourceItems(rs, r)
    {
      ghost var before := s.Written();
      WriteResource(s, rs[i]);
      forall r
        ensures s.Written() + ResourceItems(rs[i + 1..], r) == before + ResourceItems(rs[i..], r)
      {
        assert rs[i..][1..] == rs[i + 1..];
      }
    }
  }

  method WriteResource(s: Streamer, x: Resource)
    requires s.Valid() && 40 <= |s.Rest()|
    modifies s, s.base
    ensures s.Valid() && s.base == old(s.base) && |s.Rest()| == old(|s.Rest()|) - 40
    ensures forall r {:trigger s.Written() + r} ::
              s.Written() + r == old(s.Written()) + (x.md5 + (Le(x.start, 4) + (Le(x.size, 4) + r)))
  {
    s.WriteNBytes(x.md5);
    s.WriteLe(x.start, 4);
    s.WriteLe(x.size, 4);
  }

  /** A one-byte count and a list of items, not necessarily that many. */
  method WriteCounted(s: Streamer, count: u8, items: seq<seq<u8>>, w: nat)
    requires s.Valid() && 1 + w * |items| <= |s.Rest()|
    requires forall i :: 0 <= i < |items| ==> |items[i]| == w
    modifies s, s.base
    ensures s.Valid() && s.base == old(s.base) && |s.Rest()| == old(|s.Rest()|) - 1 - w * |items|
    ensures forall r {:trigger Concat(items, r)} ::
              s.Written() + r == old(s.Written()) + (Le(count, 1) + Concat(items, r))
  {
    s.WriteLe(count, 1);
    WriteItems(s, items, w);
  }

  method PackRegister(m: Message, s: Streamer)
    requires m.Sp2TsRegister? && Sendable(m) && s.Valid() && |s.Rest()| == ReservedSize(m) - HEADER
    modifies s, s.base
    ensures s.Valid() && s.base == old(s.base) && s.Rest() == []
    ensures s.Written() == old(s.Written()) + Body(m, [])
  {
    ghost var goal := s.Written() + Body(m, []);
    s.WriteLe(m.userId, 4);
    s.WriteNBytes(m.password);
    s.WriteLe(m.servicePort, 2);
    assert s.Written() + [] == goal;
  }

  method PackSpList(m: Message, s: Streamer)
    requires m.Ts2SpSpList? && Sendable(m) && s.Valid() && |s.Rest()| == ReservedSize(m) - HEADER
    modifies s, s.base
    ensures s.Valid() && s.base == old(s.base) && s.Rest() == []
    ensures s.Written() == old(s.Written()) + Body(m, [])
  {
    ghost var goal := s.Written() + Body(m, []);
    s.WriteLe(|m.addrs|, 1);
    WriteItems(s, m.addrs, 8);
    assert s.Written() + [] == goal;
  }

  method PackResList(m: Message, s: Streamer)
    requires m.Sp2TsResList? && Sendable(m) && s.Valid() && |s.Rest()| == ReservedSize(m) - HEADER
    modifies s, s.base
    ensures s.Valid() && s.base == old(s.base) && s.Rest() == []
    ensures s.Written() == old(s.Written()) + Body(m, [])
  {
    ghost var goal := s.Written() + Body(m, []);
    s.WriteNBytes(m.spUuid);
    s.WriteLe(|m.resources|, 4);
    WriteResources(s, m.resources);
    assert s.Written() + [] == goal;
  }

  method PackStatus(m: Message, s: Streamer)
    requires m.Sp2TsStatus? && Sendable(m) && s.Valid() && |s.Rest()| == ReservedSize(m) - HEADER
    modifies s, s.base
    ensures s.Valid() && s.base == old(s.base) && s.Rest() == []
    ensures s.Written() == old(s.Written()) + Body(m, [])
  {
    ghost var goal := s.Written() + Body(m, []);
    s.WriteNBytes(m.spUuid);
    s.WriteLe(m.resourceCount, 4);
    s.WriteLe(m.connectionNum, 2);
    s.WriteNBytes(m.bandwidth);
    s.WriteLe(m.exceedMaxConnection, 1);
    assert s.Written() + [] == goal;
  }

  /** The fields of a login in front of its addresses, 42 bytes. */
  function LoginHead(id: u32, password: Raw32, version: Raw4, port: u16, r: seq<u8>): seq<u8> {
    Le(id, 4) + (password + (version + (Le(port, 2) + r)))
  }

  method WriteLoginHead(s: Streamer, id: u32, password: Raw32, version: Raw4, port: u16)
    requires s.Valid() && 42 <= |s.Rest()|
    modifies s, s.base
    ensures s.Valid() && s.base == old(s.base) && |s.Rest()| == old(|s.Rest()|) - 42
    ensures forall r {:trigger LoginHead(id, password, version, port, r)} ::
              s.Written() + r == old(s.Written()) + LoginHead(id, password, version, port, r)
  {
    s.WriteLe(id, 4);
    s.WriteNBytes(password);
    s.WriteNBytes(version);
    s.WriteLe(port, 2);
  }

  method PackLogin(m: Message, s: Streamer)
    requires m.Np2TsLogin? && Sendable(m) && s.Valid() && |s.Rest()| == ReservedSize(m) - HEADER
    modifies s, s.base
    ensures s.Valid() && s.base == old(s.base) && s.Rest() == []
    ensures s.Written() == old(s.Written()) + Body(m, [])
  {
    ghost var addresses := Le(|m.ips|, 1) + Concat(m.ips, []);
    ghost var goal := s.Written() + LoginHead(m.loginId, m.password, m.clientVersion, m.listeningPort, addresses);
    WriteLoginHead(s, m.loginId, m.password, m.clientVersion, m.listeningPort);
    WriteCounted(s, |m.ips|, m.ips, 4);
    assert s.Written() + [] == goal;
  }

  /** Messages of one or two fixed fields. */
  method PackShort(m: Message, s: Streamer)
    requires m.Ts2SpWelcome? || m.Np2TsReqRes? || m.Np2TsNeedPeers? || m.Ts2NpWelcome? || m.Ts2NpResInterval?
    requires s.Valid() && |s.Rest()| == ReservedSize(m) - HEADER
    modifies s, s.base
    ensures s.Valid() && s.base == old(s.base) && s.Rest() == []
    ensures s.Written() == old(s.Written()) + Body(m, [])
  {
    ghost var goal := s.Written() + Body(m, []);
    match m {
      case Ts2SpWelcome(uuid) =>
        s.WriteNBytes(uuid);
      case Np2TsReqRes(uuid, md5) =>
        s.WriteNBytes(uuid);
        s.WriteNBytes(md5);
      case Np2TsNeedPeers(uuid, block) =>
        s.WriteNBytes(uuid);
        s.WriteLe(block, 4);
      case Ts2NpWelcome(uuid, ip) =>
        s.WriteNBytes(uuid);
        s.WriteNBytes(ip);
      case Ts2NpResInterval(interval) =>
        s.WriteNBytes(interval);
    }
    assert s.Written() + [] == goal;
  }

  // ---------------------------------------------------------------- the peer list as it is written

  /**
   The writer's loop over the peers runs to the length of the other list: it stops short of the
   last peers, or goes on into whatever lies behind the peer array.
   */
  function PeersWritten(m: Message, behind: seq<Raw20>, r: seq<u8>): seq<u8>
    requires m.Ts2NpPeers? && |m.spAddrs| <= |m.peerAddrs| + |behind|
  {
    Le(|m.spAddrs|, 1) +
    Concat(m.spAddrs, Le(|m.peerAddrs|, 1) + Concat((m.peerAddrs + behind)[..|m.spAddrs|], m.npAddr + r))
  }

  lemma PeersWrittenSize(m: Message, behind: seq<Raw20>)
    requires m.Ts2NpPeers? && |m.spAddrs| <= |m.peerAddrs| + |behind|
    ensures HEADER + |PeersWritten(m, behind, [])| == ReservedSize(m) + 20 * (|m.spAddrs| - |m.peerAddrs|)
  {
    var some := (m.peerAddrs + behind)[..|m.spAddrs|];
    ConcatSize(some, 20, m.npAddr + []);
    ConcatSize(m.spAddrs, 8, Le(|m.peerAddrs|, 1) + Concat(some, m.npAddr + []));
  }

  /**
   For every pair of lists: the peer list fills its reserve, and is what its reader expects, exactly
   when both lists are equally long, and outgrows its reserve exactly when there are more super peers.
   */
  lemma PeersExactIff(m: Message, behind: seq<Raw20>)
    requires m.Ts2NpPeers? && |m.spAddrs| <= |m.peerAddrs| + |behind|
    ensures HEADER + |PeersWritten(m, behind, [])| == ReservedSize(m) <==> |m.spAddrs| == |m.peerAddrs|
    ensures HEADER + |PeersWritten(m, behind, [])| > ReservedSize(m) <==> |m.spAddrs| > |m.peerAddrs|
    ensures PeersWritten(m, behind, []) == Body(m, []) <==> |m.spAddrs| == |m.peerAddrs|
  {
    PeersWrittenSize(m, behind);
    ReserveIsExact(m);
    if |m.spAddrs| == |m.peerAddrs| {
      assert (m.peerAddrs + behind)[..|m.spAddrs|] == m.peerAddrs;
    }
  }

  /** One super peer and no peer: twenty bytes more than reserved. */
  lemma NoPeersOutgrowReserve(sp: Raw8, np: Raw8, behind: Raw20)
    ensures var m := Ts2NpPeers([sp], [], np);
            HEADER + |PeersWritten(m, [behind], [])| == ReservedSize(m) + 20
  {
    PeersWrittenSize(Ts2NpPeers([sp], [], np), [behind]);
  }

  /** `Ts2NpPeers::pack_submsg` behind the tag, given room for what it writes. */
  method PackPeers(m: Message, behind: seq<Raw20>, s: Streamer)
    requires m.Ts2NpPeers? && Sendable(m) && |m.spAddrs| <= |m.peerAddrs| + |behind|
    requires s.Valid() && |s.Rest()| == ReservedSize(m) - HEADER + Max(0, 20 * (|m.spAddrs| - |m.peerAddrs|))
    modifies s, s.base
    ensures s.Valid() && s.base == old(s.base)
    ensures s.Written() == old(s.Written()) + PeersWritten(m, behind, [])
    ensures |s.Rest()| == Max(0, 20 * (|m.peerAddrs| - |m.spAddrs|))
  {
    ghost var goal := s.Written() + PeersWritten(m, behind, []);
    WriteCounted(s, |m.spAddrs|, m.spAddrs, 8);
    WriteCounted(s, |m.peerAddrs|, (m.peerAddrs + behind)[..|m.spAddrs|], 20);
    s.WriteNBytes(m.npAddr);
    assert s.Written() + [] == goal;
  }

  // ---------------------------------------------------------------- whole messages

  /** The writer stays inside the reserve; with as many peers as super peers it fills it. */
  predicate Contained(m: Message) {
    m.Ts2NpPeers? ==> |m.spAddrs| <= |m.peerAddrs|
  }

  predicate Filling(m: Message) {
    m.Ts2NpPeers? ==> |m.spAddrs| == |m.peerAddrs|
  }

  /** The fields as they are written. */
  function Fields(m: Message): seq<u8>
    requires Contained(m)
  {
    if m.Ts2NpPeers? then PeersWritten(m, [], []) else Body(m, [])
  }

  lemma FieldsSize(m: Message)
    requires Contained(m)
    ensures HEADER + |Fields(m)| <= ReservedSize(m)
    ensures Filling(m) <==> HEADER + |Fields(m)| == ReservedSize(m)
    ensures Filling(m) ==> Fields(m) == Body(m, [])
  {
    ReserveIsExact(m);
    if m.Ts2NpPeers? {
      PeersWrittenSize(m, []);
      PeersExactIff(m, []);
    }
  }

  /** The writers of the messages that always fill their reserve. */
  method PackFields(m: Message, s: Streamer)
    requires !m.Ts2NpPeers? && Sendable(m) && s.Valid() && |s.Rest()| == ReservedSize(m) - HEADER
    modifies s, s.base
    ensures s.Valid() && s.base == old(s.base) && s.Rest() == []
    ensures s.Written() == old(s.Written()) + Body(m, [])
  {
    if m.Sp2TsRegister? {
      PackRegister(m, s);
    } else if m.Ts2SpSpList? {
      PackSpList(m, s);
    } else if m.Sp2TsResList? {
      PackResList(m, s);
    } else if m.Sp2TsStatus? {
      PackStatus(m, s);
    } else if m.Np2TsLogin? {
      PackLogin(m, s);
    } else {
      PackShort(m, s);
    }
  }

  /** `pack_submsg`: the tag, then the fields in wire order. */
  method PackSubmsg(m: Message, s: Streamer)
    requires Sendable(m) && Contained(m) && s.Valid() && |s.Rest()| == ReservedSize(m) - 4
    modifies s, s.base
    ensures s.Valid() && s.base == old(s.base)
    ensures s.Written() == old(s.Written()) + (Le(Tag(m), 1) + Fields(m))
  {
    s.WriteLe(Tag(m), 1);
    if m.Ts2NpPeers? {
      PackPeers(m, [], s);
    } else {
      PackFields(m, s);
    }
  }

  /** The bytes of a message on the wire. */
  function Packed(m: Message): seq<u8> {
    Le(ReservedSize(m), 4) + (Le(Tag(m), 1) + Body(m, []))
  }

  /** Everything the writers put into the buffer. */
  function Image(m: Message): seq<u8>
    requires Contained(m)
  {
    Le(ReservedSize(m), 4) + (Le(Tag(m), 1) + Fields(m))
  }

  lemma ImageSize(m: Message)
    requires Contained(m)
    ensures |Image(m)| <= ReservedSize(m)
    ensures Filling(m) ==> |Image(m)| == ReservedSize(m) && Image(m) == Packed(m)
  {
    FieldsSize(m);
  }

  method PackInto(m: Message, s: Streamer)
    requires Sendable(m) && Contained(m) && s.Valid() && s.Written() == [] && |s.Rest()| == ReservedSize(m)
    modifies s, s.base
    ensures s.Valid() && s.base == old(s.base) && s.Written() == Image(m)
  {
    s.WriteLe(ReservedSize(m), 4);
    assert s.Written() == Le(ReservedSize(m), 4);
    PackSubmsg(m, s);
  }

  /** `RsMessage::pack`: the reserved buffer, filled to its last byte unless a peer list has too many peers. */
  method Pack(m: Message) returns (payload: array<u8>)
    requires Sendable(m) && Contained(m)
    ensures fresh(payload) && payload.Length == ReservedSize(m)
    ensures Image(m) <= payload[..]
    ensures Filling(m) ==> payload[..] == Packed(m)
  {
    var size := ReservedSize(m);
    ImageSize(m);
    ghost var image, packed, filling := Image(m), Packed(m), Filling(m);
    payload := new u8[size];
    var s := new Streamer(payload);
    PackInto(m, s);
    assert payload[..|image|] == image;
  }

  /** A packed message is one frame whose size field is its own length. */
  lemma PackedIsFrame(m: Message, rest: seq<u8>)
    requires Sendable(m)
    ensures |Packed(m)| == ReservedSize(m)
    ensures Packed(m) == Encode(Frame(Tag(m), Body(m, [])))
    ensures FirstFrame(Packed(m) + rest) == Some((Frame(Tag(m), Body(m, [])), ReservedSize(m)))
  {
    ReserveIsExact(m);
    var f := Frame(Tag(m), Body(m, []));
    assert Le(Tag(m), 1) == [Tag(m)] by {
      assert Le(Tag(m) / 256, 0) == [];
    }
    assert Packed(m) == Encode(f);
    FirstFrameOfEncoding(f, rest);
  }

  // ---------------------------------------------------------------- readers

  method ReadItems(s: Streamer, count: nat, w: nat) returns (items: seq<seq<u8>>)
    requires s.Valid() && w * count <= |s.Rest()|
    modifies s
    ensures s.Valid() && s.base == old(s.base) && |s.Rest()| == old(|s.Rest()|) - w * count
    ensures |items| == count && forall i :: 0 <= i < count ==> |items[i]| == w
    ensures old(s.Rest()) == Concat(items, s.Rest())
  {
    items := [];
    for i := 0 to count
      invariant s.Valid() && s.base == old(s.base) && |s.Rest()| == old(|s.Rest()|) - w * i
      invariant |items| == i && forall k :: 0 <= k < i ==> |items[k]| == w
      invariant old(s.Rest()) == Concat(items, s.Rest())
    {
      NextItemFits(w, i, count);
      var x := s.ReadNBytes(w);
      ConcatSnoc(items, x, s.Rest());
      items := items + [x];
    }
  }

  lemma {:induction false} ConcatSnoc(items: seq<seq<u8>>, x: seq<u8>, r: seq<u8>)
    ensures Concat(items + [x], r) == Concat(items, x + r)
  {
    if items == [] {
      assert ([] + [x])[1..] == [];
    } else {
      ConcatSnoc(items[1..], x, r);
      assert (items + [x])[1..] == items[1..] + [x];
    }
  }

  method ReadResources(s: Streamer, count: nat) returns (rs: seq<Resource>)
    requires s.Valid() && 40 * count <= |s.Rest()|
    modifies s
    ensures s.Valid() && s.base == old(s.base) && |s.Rest()| == old(|s.Rest()|) - 40 * count
    ensures |rs| == count && old(s.Rest()) == ResourceItems(rs, s.Rest())
  {
    rs := [];
    Widths();
    for i := 0 to count
      invariant s.Valid() && s.base == old(s.base) && |s.Rest()| == old(|s.Rest()|) - 40 * i
      invariant |rs| == i && old(s.Rest()) == ResourceItems(rs, s.Rest())
    {
      var md5 := s.ReadNBytes(32);
      var start := s.ReadLe(4);
      var size := s.ReadLe(4);
      ResourcesSnoc(rs, Resource(md5, start, size), s.Rest());
      rs := rs + [Resource(md5, start, size)];
    }
  }

  lemma {:induction false} ResourcesSnoc(rs: seq<Resource>, x: Resource, r: seq<u8>)
    ensures ResourceItems(rs + [x], r) ==
            ResourceItems(rs, x.md5 + (Le(x.start, 4) + (Le(x.size, 4) + r)))
  {
    if rs == [] {
      assert ([x] + [])[1..] == [] && [] + [x] == [x];
    } else {
      ResourcesSnoc(rs[1..], x, r);
      assert (rs + [x])[1..] == rs[1..] + [x];
    }
  }

  /** The reads of `parse` stay inside the buffer; the source asserts as much at every read. */
  ghost predicate Enough(kind: u8, b: seq<u8>) {
    match kind
    case 0x20 => 38 <= |b|
    case 0x21 => 27 <= |b|
    case 0x22 => 20 <= |b| && 20 + 40 * FromLe(b[16..20]) <= |b| <= 0x7fff_ffff - HEADER
    case 0x25 => 16 <= |b|
    case 0x27 => 1 <= |b| && 1 + 8 * FromLe(b[..1]) <= |b|
    case 0x30 => 43 <= |b| && 43 + 4 * FromLe(b[42..43]) <= |b|
    case 0x31 => 48 <= |b|
    case 0x33 => 20 <= |b|
    case 0x36 => 32 <= |b|
    case 0x37 =>
      && 1 <= |b|
      && var p := 1 + 8 * FromLe(b[..1]);
         p + 1 <= |b| && p + 9 + 20 * FromLe(b[p..p + 1]) <= |b|
    case 0x38 => 8 <= |b|
    case _ => false
  }

  lemma LePrefix(b: seq<u8>, v: nat, n: nat, r: seq<u8>)
    requires v < Power256(n) && b == Le(v, n) + r
    ensures FromLe(b[..n]) == v
  {
    FromLeOfLe(v, n);
    assert b[..n] == Le(v, n);
  }

  method ParseRegister(s: Streamer) returns (m: Message)
    requires s.Valid() && Enough(0x20, s.Rest())
    modifies s
    ensures s.Valid() && s.base == old(s.base) && m.Sp2TsRegister? && Sendable(m)
    ensures old(s.Rest()) == Body(m, s.Rest())
  {
    Widths();
    var userId := s.ReadLe(4);
    var password := s.ReadNBytes(32);
    var servicePort := s.ReadLe(2);
    m := Sp2TsRegister(userId, password, servicePort);
  }

  method ParseSpList(s: Streamer) returns (m: Message)
    requires s.Valid() && Enough(0x27, s.Rest())
    modifies s
    ensures s.Valid() && s.base == old(s.base) && m.Ts2SpSpList? && Sendable(m)
    ensures old(s.Rest()) == Body(m, s.Rest())
  {
    Widths();
    ghost var b := s.Rest();
    var count := s.ReadLe(1);
    LePrefix(b, count, 1, s.Rest());
    var addrs := ReadItems(s, count, 8);
    m := Ts2SpSpList(addrs);
  }

  method ParseResList(s: Streamer) returns (m: Message)
    requires s.Valid() && Enough(0x22, s.Rest())
    modifies s
    ensures s.Valid() && s.base == old(s.base) && m.Sp2TsResList? && Sendable(m)
    ensures old(s.Rest()) == Body(m, s.Rest())
  {
    Widths();
    ghost var b := s.Rest();
    var uuid := s.ReadNBytes(16);
    var count := s.ReadLe(4);
    LePrefix(b[16..], count, 4, s.Rest());
    assert b[16..][..4] == b[16..20];
    var rs := ReadResources(s, count);
    m := Sp2TsResList(uuid, rs);
  }

  method ParseStatus(s: Streamer) returns (m: Message)
    requires s.Valid() && Enough(0x21, s.Rest())
    modifies s
    ensures s.Valid() && s.base == old(s.base) && m.Sp2TsStatus? && Sendable(m)
    ensures old(s.Rest()) == Body(m, s.Rest())
  {
    Widths();
    var uuid := s.ReadNBytes(16);
    var count := s.ReadLe(4);
    var num := s.ReadLe(2);
    var bandwidth := s.ReadNBytes(4);
    var exceed := s.ReadLe(1);
    m := Sp2TsStatus(uuid, count, num, bandwidth, exceed);
  }

  method ParseLogin(s: Streamer) returns (m: Message)
    requires s.Valid() && Enough(0x30, s.Rest())
    modifies s
    ensures s.Valid() && s.base == old(s.base) && m.Np2TsLogin? && Sendable(m)
    ensures old(s.Rest()) == Body(m, s.Rest())
  {
    ghost var b := s.Rest();
    var id, password, version, port := ReadLoginHead(s);
    assert s.Rest()[..1] == b[42..43];
    var ips := ReadCounted(s, 4);
    m := Np2TsLogin(id, password, version, port, ips);
  }

  method ReadLoginHead(s: Streamer) returns (id: u32, password: Raw32, version: Raw4, port: u16)
    requires s.Valid() && 42 <= |s.Rest()|
    modifies s
    ensures s.Valid() && s.base == old(s.base) && s.Rest() == old(s.Rest())[42..]
    ensures old(s.Rest()) == LoginHead(id, password, version, port, s.Rest())
  {
    Widths();
    id := s.ReadLe(4);
    password := s.ReadNBytes(32);
    version := s.ReadNBytes(4);
    port := s.ReadLe(2);
  }

  /** A one-byte count and that many items. */
  method ReadCounted(s: Streamer, w: nat) returns (items: seq<seq<u8>>)
    requires s.Valid() && 1 <= |s.Rest()| && 1 + w * FromLe(s.Rest()[..1]) <= |s.Rest()|
    modifies s
    ensures s.Valid() && s.base == old(s.base)
    ensures |items| == FromLe(old(s.Rest())[..1]) <= 0xff && forall i :: 0 <= i < |items| ==> |items[i]| == w
    ensures old(s.Rest()) == Le(|items|, 1) + Concat(items, s.Rest())
    ensures |s.Rest()| == |old(s.Rest())| - 1 - w * |items|
    ensures s.Rest() == old(s.Rest())[1 + w * |items|..]
  {
    Widths();
    ghost var b := s.Rest();
    var count := s.ReadLe(1);
    LePrefix(b, count, 1, s.Rest());
    items := ReadItems(s, count, w);
  }

  /** The two lists of a peer list message. */
  method ReadLists(s: Streamer) returns (sps: seq<seq<u8>>, peers: seq<seq<u8>>)
    requires s.Valid() && Enough(0x37, s.Rest())
    modifies s
    ensures s.Valid() && s.base == old(s.base) && 8 <= |s.Rest()|
    ensures |sps| <= 0xff && |peers| <= 0xff
    ensures (forall i :: 0 <= i < |sps| ==> |sps[i]| == 8) && forall i :: 0 <= i < |peers| ==> |peers[i]| == 20
    ensures old(s.Rest()) == Le(|sps|, 1) + Concat(sps, Le(|peers|, 1) + Concat(peers, s.Rest()))
  {
    ghost var b := s.Rest();
    ghost var p := 1 + 8 * FromLe(b[..1]);
    sps := ReadCounted(s, 8);
    assert s.Rest() == b[p..];
    assert b[p..][..1] == b[p..p + 1];
    peers := ReadCounted(s, 20);
  }

  method ParsePeers(s: Streamer) returns (m: Message)
    requires s.Valid() && Enough(0x37, s.Rest())
    modifies s
    ensures s.Valid() && s.base == old(s.base) && m.Ts2NpPeers? && Sendable(m)
    ensures old(s.Rest()) == Body(m, s.Rest())
  {
    var sps, peers := ReadLists(s);
    var np := s.ReadNBytes(8);
    m := Ts2NpPeers(sps, peers, np);
  }

  method ParseShort(kind: u8, s: Streamer) returns (m: Message)
    requires kind in {0x25, 0x31, 0x33, 0x36, 0x38} && s.Valid() && Enough(kind, s.Rest())
    modifies s
    ensures s.Valid() && s.base == old(s.base) && Tag(m) == kind && Sendable(m)
    ensures old(s.Rest()) == Body(m, s.Rest())
  {
    Widths();
    if kind == 0x25 {
      var uuid := s.ReadNBytes(16);
      m := Ts2SpWelcome(uuid);
    } else if kind == 0x31 {
      var uuid := s.ReadNBytes(16);
      var md5 := s.ReadNBytes(32);
      m := Np2TsReqRes(uuid, md5);
    } else if kind == 0x33 {
      var uuid := s.ReadNBytes(16);
      var block := s.ReadLe(4);
      m := Np2TsNeedPeers(uuid, block);
    } else if kind == 0x36 {
      var uuid := s.ReadNBytes(16);
      var ip := s.ReadNBytes(16);
      m := Ts2NpWelcome(uuid, ip);
    } else {
      var interval := s.ReadNBytes(8);
      m := Ts2NpResInterval(interval);
    }
  }

  /** The reader for a message type: what it consumed is the wire form of what it returns. */
  method Parse(kind: u8, s: Streamer) returns (m: Message)
    requires s.Valid() && Enough(kind, s.Rest())
    modifies s
    ensures s.Valid() && s.base == old(s.base) && Tag(m) == kind && Sendable(m)
    ensures old(s.Rest()) == Body(m, s.Rest())
  {
    match kind {
      case 0x20 => m := ParseRegister(s);
      case 0x21 => m := ParseStatus(s);
      case 0x22 => m := ParseResList(s);
      case 0x27 => m := ParseSpList(s);
      case 0x30 => m := ParseLogin(s);
      case 0x37 => m := ParsePeers(s);
      case _ => m := ParseShort(kind, s);
    }
  }

  // ---------------------------------------------------------------- both ends together

  lemma LeadingLe(v: nat, n: nat, r: seq<u8>)
    requires v < Power256(n)
    ensures FromLe((Le(v, n) + r)[..n]) == v
  {
    LePrefix(Le(v, n) + r, v, n, r);
  }

  lemma PeersAreEnough(m: Message)
    requires m.Ts2NpPeers? && Sendable(m)
    ensures Enough(0x37, Body(m, []))
  {
    Widths();
    var b := Body(m, []);
    var tail := Le(|m.peerAddrs|, 1) + Concat(m.peerAddrs, m.npAddr + []);
    var p := 1 + 8 * |m.spAddrs|;
    ReserveIsExact(m);
    LeadingLe(|m.spAddrs|, 1, Concat(m.spAddrs, tail));
    ConcatTail(m.spAddrs, 8, tail);
    assert b[1..] == Concat(m.spAddrs, tail);
    assert b[p..] == tail;
    assert b[p..p + 1] == tail[..1];
    LeadingLe(|m.peerAddrs|, 1, Concat(m.peerAddrs, m.npAddr + []));
  }

  lemma DropBoth(a: seq<u8>, b: seq<u8>, k: nat)
    requires k <= |b|
    ensures (a + b)[|a| + k..] == b[k..]
  {
  }

  lemma {:induction false} ConcatTail(items: seq<seq<u8>>, w: nat, r: seq<u8>)
    requires forall i :: 0 <= i < |items| ==> |items[i]| == w
    ensures |Concat(items, r)| == w * |items| + |r| && Concat(items, r)[w * |items|..] == r
  {
    ConcatSize(items, w, r);
    if items != [] {
      ConcatTail(items[1..], w, r);
      var k := w * |items[1..]|;
      NextItemFits(w, |items| - 1, |items|);
      DropBoth(items[0], Concat(items[1..], r), k);
    }
  }

  /** A packed body is long enough for its own reader. */
  lemma BodyIsEnough(m: Message)
    requires Sendable(m)
    ensures Enough(Tag(m), Body(m, []))
  {
    Widths();
    ReserveIsExact(m);
    if m.Ts2SpSpList? {
      LeadingLe(|m.addrs|, 1, Concat(m.addrs, []));
    } else if m.Sp2TsResList? {
      var tail := ResourceItems(m.resources, []);
      LeadingLe(|m.resources|, 4, tail);
      assert Body(m, [])[16..20] == (Le(|m.resources|, 4) + tail)[..4];
    } else if m.Np2TsLogin? {
      LoginCount(m);
    } else if m.Ts2NpPeers? {
      PeersAreEnough(m);
    }
  }

  lemma LoginCount(m: Message)
    requires m.Np2TsLogin? && Sendable(m)
    ensures |Body(m, [])| >= 43 && FromLe(Body(m, [])[42..43]) == |m.ips|
  {
    Widths();
    var tail := Le(|m.ips|, 1) + Concat(m.ips, []);
    var front := Le(m.loginId, 4) + m.password + m.clientVersion + Le(m.listeningPort, 2);
    assert Body(m, []) == front + tail;
    assert Body(m, [])[42..43] == tail[..1];
    LeadingLe(|m.ips|, 1, Concat(m.ips, []));
  }

  /** The reader for the body of a packed message returns the message and consumes the whole body. */
  method ParseBody(kind: u8, content: seq<u8>, ghost sent: Message) returns (m: Message, read: nat)
    requires Sendable(sent) && kind == Tag(sent) && content == Body(sent, [])
    ensures m == sent && read == |content|
  {
    BodyIsEnough(sent);
    var buf := new u8[|content|](i requires 0 <= i < |content| => content[i]);
    assert buf[..] == content;
    var s := new Streamer(buf);
    m := Parse(kind, s);
    BodyDeterminesMessage(m, s.Rest(), sent, []);
    read := s.curr;
  }

  /** The packet handler: the type is behind the size field, the reader gets what follows. */
  method HandlePacket(packet: seq<u8>, ghost sent: Message) returns (m: Message, read: nat)
    requires Sendable(sent) && packet == Packed(sent)
    ensures m == sent && HEADER + read == |packet| == ReservedSize(sent)
  {
    PackedIsFrame(sent, []);
    assert packet + [] == packet;
    m, read := ParseBody(packet[4], packet[HEADER..], sent);
  }
}
