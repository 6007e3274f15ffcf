/**
 The tracker and super-peer messages that have both a writer and a reader: what the writer
 reserves, what it puts on the wire, and that the reader gets the same message back.
 */
module Messages {
  import opened Words
  import opened Bytes
  import opened Streamers
  import opened Framing

  type Raw4 = b: seq<u8> | |b| == 4 witness [0, 0, 0, 0]
  type Raw8 = b: seq<u8> | |b| == 8 witness seq(8, _ => 0)
  type Raw16 = b: seq<u8> | |b| == 16 witness seq(16, _ => 0)
  type Raw20 = b: seq<u8> | |b| == 20 witness seq(20, _ => 0)
  type Raw32 = b: seq<u8> | |b| == 32 witness seq(32, _ => 0)

  /** The interval's two words follow the hash on the wire; 40 bytes in all. */
  datatype Resource = Resource(md5: Raw32, start: u32, size: u32)

  datatype Message =
    | Sp2TsRegister(userId: u32, password: Raw32, servicePort: u16)
    | Ts2SpWelcome(spUuid: Raw16)
    | Ts2SpSpList(addrs: seq<Raw8>)
    | Sp2TsResList(spUuid: Raw16, resources: seq<Resource>)
    | Sp2TsStatus(spUuid: Raw16, resourceCount: u32, connectionNum: u16, bandwidth: Raw4, exceedMaxConnection: u8)
    | Np2TsLogin(loginId: u32, password: Raw32, clientVersion: Raw4, listeningPort: u16, ips: seq<Raw4>)
    | Np2TsReqRes(uuid: Raw16, resourceMd5: Raw32)
    | Np2TsNeedPeers(uuid: Raw16, currentBlock: u32)
    | Ts2NpWelcome(uuid: Raw16, peerIp: Raw16)
    | Ts2NpResInterval(interval: Raw8)
    | Ts2NpPeers(spAddrs: seq<Raw8>, peerAddrs: seq<Raw20>, npAddr: Raw8)

  function Tag(m: Message): u8 {
    match m
    case Sp2TsRegister(_, _, _) => 0x20
    case Sp2TsStatus(_, _, _, _, _) => 0x21
    case Sp2TsResList(_, _) => 0x22
    case Ts2SpWelcome(_) => 0x25
    case Ts2SpSpList(_) => 0x27
    case Np2TsLogin(_, _, _, _, _) => 0x30
    case Np2TsReqRes(_, _) => 0x31
    case Np2TsNeedPeers(_, _) => 0x33
    case Ts2NpWelcome(_, _) => 0x36
    case Ts2NpPeers(_, _, _) => 0x37
    case Ts2NpResInterval(_) => 0x38
  }

  /** The counts fit their fields and the reserved size is a positive `int`. */
  predicate Sendable(m: Message) {
    && ReservedSize(m) <= 0x7fff_ffff
    && (m.Ts2SpSpList? ==> |m.addrs| <= 0xff)
    && (m.Np2TsLogin? ==> |m.ips| <= 0xff)
    && (m.Ts2NpPeers? ==> |m.spAddrs| <= 0xff && |m.peerAddrs| <= 0xff)
  }

  /** `reserve_pack_size`. */
  function ReservedSize(m: Message): nat {
    HEADER + match m
    case Sp2TsRegister(_, _, _) => 38
    case Ts2SpWelcome(_) => 16
    case Ts2SpSpList(addrs) => 1 + 8 * |addrs|
    case Sp2TsResList(_, resources) => 20 + 40 * |resources|
    case Sp2TsStatus(_, _, _, _, _) => 27
    case Np2TsLogin(_, _, _, _, ips) => 43 + 4 * |ips|
    case Np2TsReqRes(_, _) => 48
    case Np2TsNeedPeers(_, _) => 20
    case Ts2NpWelcome(_, _) => 32
    case Ts2NpResInterval(_) => 8
    case Ts2NpPeers(sps, peers, _) => 1 + 8 * |sps| + 1 + 20 * |peers| + 8
  }

  // ---------------------------------------------------------------- the layout

  function Concat(items: seq<seq<u8>>, r: seq<u8>): seq<u8> {
    if items == [] then r else items[0] + Concat(items[1..], r)
  }

  function ResourceItems(rs: seq<Resource>, r: seq<u8>): seq<u8> {
    if rs == [] then r else rs[0].md5 + (Le(rs[0].start, 4) + (Le(rs[0].size, 4) + ResourceItems(rs[1..], r)))
  }

  /** The fields of the message in wire order, followed by the bytes r. */
  function Body(m: Message, r: seq<u8>): seq<u8> {
    match m
    case Sp2TsRegister(id, password, port) => Le(id, 4) + (password + (Le(port, 2) + r))
    case Ts2SpWelcome(uuid) => uuid + r
    case Ts2SpSpList(addrs) => Le(|addrs|, 1) + Concat(addrs, r)
    case Sp2TsResList(uuid, resources) => uuid + (Le(|resources|, 4) + ResourceItems(resources, r))
    case Sp2TsStatus(uuid, count, num, bandwidth, exceed) =>
      uuid + (Le(count, 4) + (Le(num, 2) + (bandwidth + (Le(exceed, 1) + r))))
    case Np2TsLogin(id, password, version, port, ips) =>
      Le(id, 4) + (password + (version + (Le(port, 2) + (Le(|ips|, 1) + Concat(ips, r)))))
    case Np2TsReqRes(uuid, md5) => uuid + (md5 + r)
    case Np2TsNeedPeers(uuid, block) => uuid + (Le(block, 4) + r)
    case Ts2NpWelcome(uuid, ip) => uuid + (ip + r)
    case Ts2NpResInterval(interval) => interval + r
    case Ts2NpPeers(sps, peers, np) => Le(|sps|, 1) + Concat(sps, Le(|peers|, 1) + Concat(peers, np + r))
  }

  lemma {:induction false} ConcatSize(items: seq<seq<u8>>, w: nat, r: seq<u8>)
    requires forall i :: 0 <= i < |items| ==> |items[i]| == w
    ensures |Concat(items, r)| == w * |items| + |r|
  {
    if items != [] {
      ConcatSize(items[1..], w, r);
      assert w * |items| == w + w * (|items| - 1);
    }
  }

  lemma {:induction false} ResourcesSize(rs: seq<Resource>, r: seq<u8>)
    ensures |ResourceItems(rs, r)| == 40 * |rs| + |r|
  {
    if rs != [] {
      ResourcesSize(rs[1..], r);
    }
  }

  /** The fields fill the reserved size exactly. */
  lemma ReserveIsExact(m: Message)
    ensures HEADER + |Body(m, [])| == ReservedSize(m)
  {
    match m
    case Ts2SpSpList(addrs) => ConcatSize(addrs, 8, []);
    case Sp2TsResList(_, resources) => ResourcesSize(resources, []);
    case Np2TsLogin(_, _, _, _, ips) => ConcatSize(ips, 4, []);
    case Ts2NpPeers(sps, peers, np) =>
      ConcatSize(peers, 20, np + []);
      ConcatSize(sps, 8, Le(|peers|, 1) + Concat(peers, np + []));
    case _ =>
  }

  // ---------------------------------------------------------------- the layout determines the message

  lemma SplitEqual(a: seq<u8>, r: seq<u8>, a': seq<u8>, r': seq<u8>)
    requires |a| == |a'| && a + r == a' + r'
    ensures a == a' && r == r'
  {
    assert a == (a + r)[..|a|] && r == (a + r)[|a|..];
    assert a' == (a' + r')[..|a|] && r' == (a' + r')[|a|..];
  }

  lemma LeEqual(v: nat, r: seq<u8>, v': nat, r': seq<u8>, n: nat)
    requires v < Power256(n) && v' < Power256(n)
    requires Le(v, n) + r == Le(v', n) + r'
    ensures v == v' && r == r'
  {
    SplitEqual(Le(v, n), r, Le(v', n), r');
    FromLeOfLe(v, n);
    FromLeOfLe(v', n);
  }

  lemma {:induction false} ConcatEqual(a: seq<seq<u8>>, r: seq<u8>, b: seq<seq<u8>>, r': seq<u8>, w: nat)
    requires |a| == |b| && Concat(a, r) == Concat(b, r')
    requires forall i :: 0 <= i < |a| ==> |a[i]| == |b[i]| == w
    ensures a == b && r == r'
  {
    if a != [] {
      SplitEqual(a[0], Concat(a[1..], r), b[0], Concat(b[1..], r'));
      ConcatEqual(a[1..], r, b[1..], r', w);
      assert a == [a[0]] + a[1..] && b == [b[0]] + b[1..];
    }
  }

  lemma {:induction false} ResourcesEqual(a: seq<Resource>, r: seq<u8>, b: seq<Resource>, r': seq<u8>)
    requires |a| == |b| && ResourceItems(a, r) == ResourceItems(b, r')
    ensures a == b && r == r'
  {
    if a != [] {
      Widths();
      var x, y := ResourceItems(a[1..], r), ResourceItems(b[1..], r');
      SplitEqual(a[0].md5, Le(a[0].start, 4) + (Le(a[0].size, 4) + x),
                 b[0].md5, Le(b[0].start, 4) + (Le(b[0].size, 4) + y));
      LeEqual(a[0].start, Le(a[0].size, 4) + x, b[0].start, Le(b[0].size, 4) + y, 4);
      LeEqual(a[0].size, x, b[0].size, y, 4);
      ResourcesEqual(a[1..], r, b[1..], r');
      assert a == [a[0]] + a[1..] && b == [b[0]] + b[1..];
    }
  }

  lemma RegisterEqual(m: Message, r: seq<u8>, m': Message, r': seq<u8>)
    requires m.Sp2TsRegister? && m'.Sp2TsRegister? && Body(m, r) == Body(m', r')
    ensures m == m' && r == r'
  {
    Widths();
    LeEqual(m.userId, m.password + (Le(m.servicePort, 2) + r),
            m'.userId, m'.password + (Le(m'.servicePort, 2) + r'), 4);
    SplitEqual(m.password, Le(m.servicePort, 2) + r, m'.password, Le(m'.servicePort, 2) + r');
    LeEqual(m.servicePort, r, m'.servicePort, r', 2);
  }

  lemma ResListEqual(m: Message, r: seq<u8>, m': Message, r': seq<u8>)
    requires m.Sp2TsResList? && m'.Sp2TsResList? && Sendable(m) && Sendable(m') && Body(m, r) == Body(m', r')
    ensures m == m' && r == r'
  {
    Widths();
    var x, y := ResourceItems(m.resources, r), ResourceItems(m'.resources, r');
    SplitEqual(m.spUuid, Le(|m.resources|, 4) + x, m'.spUuid, Le(|m'.resources|, 4) + y);
    LeEqual(|m.resources|, x, |m'.resources|, y, 4);
    ResourcesEqual(m.resources, r, m'.resources, r');
  }

  lemma StatusEqual(m: Message, r: seq<u8>, m': Message, r': seq<u8>)
    requires m.Sp2TsStatus? && m'.Sp2TsStatus? && Body(m, r) == Body(m', r')
    ensures m == m' && r == r'
  {
    Widths();
    var e, e' := Le(m.exceedMaxConnection, 1) + r, Le(m'.exceedMaxConnection, 1) + r';
    var n, n' := Le(m.connectionNum, 2) + (m.bandwidth + e), Le(m'.connectionNum, 2) + (m'.bandwidth + e');
    SplitEqual(m.spUuid, Le(m.resourceCount, 4) + n, m'.spUuid, Le(m'.resourceCount, 4) + n');
    LeEqual(m.resourceCount, n, m'.resourceCount, n', 4);
    LeEqual(m.connectionNum, m.bandwidth + e, m'.connectionNum, m'.bandwidth + e', 2);
    SplitEqual(m.bandwidth, e, m'.bandwidth, e');
    LeEqual(m.exceedMaxConnection, r, m'.exceedMaxConnection, r', 1);
  }

  lemma LoginEqual(m: Message, r: seq<u8>, m': Message, r': seq<u8>)
    requires m.Np2TsLogin? && m'.Np2TsLogin? && Sendable(m) && Sendable(m') && Body(m, r) == Body(m', r')
    ensures m == m' && r == r'
  {
    Widths();
    var c, c' := Le(|m.ips|, 1) + Concat(m.ips, r), Le(|m'.ips|, 1) + Concat(m'.ips, r');
    var v, v' := m.clientVersion + (Le(m.listeningPort, 2) + c), m'.clientVersion + (Le(m'.listeningPort, 2) + c');
    LeEqual(m.loginId, m.password + v, m'.loginId, m'.password + v', 4);
    SplitEqual(m.password, v, m'.password, v');
    SplitEqual(m.clientVersion, Le(m.listeningPort, 2) + c, m'.clientVersion, Le(m'.listeningPort, 2) + c');
    LeEqual(m.listeningPort, c, m'.listeningPort, c', 2);
    LeEqual(|m.ips|, Concat(m.ips, r), |m'.ips|, Concat(m'.ips, r'), 1);
    ConcatEqual(m.ips, r, m'.ips, r', 4);
  }

  lemma PeersEqual(m: Message, r: seq<u8>, m': Message, r': seq<u8>)
    requires m.Ts2NpPeers? && m'.Ts2NpPeers? && Sendable(m) && Sendable(m') && Body(m, r) == Body(m', r')
    ensures m == m' && r == r'
  {
    Widths();
    var p, p' := Concat(m.peerAddrs, m.npAddr + r), Concat(m'.peerAddrs, m'.npAddr + r');
    var x, x' := Le(|m.peerAddrs|, 1) + p, Le(|m'.peerAddrs|, 1) + p';
    LeEqual(|m.spAddrs|, Concat(m.spAddrs, x), |m'.spAddrs|, Concat(m'.spAddrs, x'), 1);
    ConcatEqual(m.spAddrs, x, m'.spAddrs, x', 8);
    LeEqual(|m.peerAddrs|, p, |m'.peerAddrs|, p', 1);
    ConcatEqual(m.peerAddrs, m.npAddr + r, m'.peerAddrs, m'.npAddr + r', 20);
    SplitEqual(m.npAddr, r, m'.npAddr, r');
  }

  /** Two messages of one type that agree on the wire are the same message. */
  lemma BodyDeterminesMessage(m: Message, r: seq<u8>, m': Message, r': seq<u8>)
    requires Tag(m) == Tag(m') && Sendable(m) && Sendable(m') && Body(m, r) == Body(m', r')
    ensures m == m' && r == r'
  {
    Widths();
    match m {
      case Sp2TsRegister(_, _, _) => RegisterEqual(m, r, m', r');
      case Ts2SpWelcome(_) => SplitEqual(m.spUuid, r, m'.spUuid, r');
      case Ts2SpSpList(_) =>
        LeEqual(|m.addrs|, Concat(m.addrs, r), |m'.addrs|, Concat(m'.addrs, r'), 1);
        ConcatEqual(m.addrs, r, m'.addrs, r', 8);
      case Sp2TsResList(_, _) => ResListEqual(m, r, m', r');
      case Sp2TsStatus(_, _, _, _, _) => StatusEqual(m, r, m', r');
      case Np2TsLogin(_, _, _, _, _) => LoginEqual(m, r, m', r');
      case Np2TsReqRes(_, _) =>
        SplitEqual(m.uuid, m.resourceMd5 + r, m'.uuid, m'.resourceMd5 + r');
        SplitEqual(m.resourceMd5, r, m'.resourceMd5, r');
      case Np2TsNeedPeers(_, _) =>
        SplitEqual(m.uuid, Le(m.currentBlock, 4) + r, m'.uuid, Le(m'.currentBlock, 4) + r');
        LeEqual(m.currentBlock, r, m'.currentBlock, r', 4);
      case Ts2NpWelcome(_, _) =>
        SplitEqual(m.uuid, m.peerIp + r, m'.uuid, m'.peerIp + r');
        SplitEqual(m.peerIp, r, m'.peerIp, r');
      case Ts2NpResInterval(_) => SplitEqual(m.interval, r, m'.interval, r');
      case Ts2NpPeers(_, _, _) => PeersEqual(m, r, m', r');
    }
  }
}
