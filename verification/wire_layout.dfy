/** Where the fields of each message stand on the wire, byte by byte. */
module WireLayout {
  import opened Words
  import opened Bytes
  import opened Streamers
  import opened Framing
  import opened Messages
  import opened Codecs

  // ---------------------------------------------------------------- pieces of a byte string

  /** From position k on, b begins with a and goes on with r. */
  lemma At(b: seq<u8>, k: nat, a: seq<u8>, r: seq<u8>)
    requires k <= |b| && b[k..] == a + r
    ensures k + |a| <= |b| && b[k..k + |a|] == a && b[k + |a|..] == r
  {
    assert b[k..][..|a|] == b[k..k + |a|];
    assert b[k..][|a|..] == b[k + |a|..];
  }

  /** Least significant byte first. */
  lemma LeBytes(v: nat)
    ensures Le(v, 1) == [v % 0x100]
    ensures Le(v, 2) == [v % 0x100, v / 0x100 % 0x100]
    ensures Le(v, 4) == [v % 0x100, v / 0x100 % 0x100, v / 0x1_0000 % 0x100, v / 0x100_0000 % 0x100]
  {
    assert Le(v / 0x100, 0) == [] && Le(v / 0x100 / 0x100, 0) == [];
    assert v / 0x100 / 0x100 == v / 0x1_0000 && v / 0x100 / 0x100 / 0x100 == v / 0x100_0000;
    assert Le(v / 0x100 / 0x100 / 0x100 / 0x100, 0) == [];
    assert Le(v / 0x100, 1) == [v / 0x100 % 0x100];
    assert Le(v / 0x100_0000, 1) == [v / 0x100_0000 % 0x100];
    assert Le(v / 0x1_0000, 2) == [v / 0x1_0000 % 0x100] + Le(v / 0x100_0000, 1);
    assert Le(v / 0x100, 3) == [v / 0x100 % 0x100] + Le(v / 0x1_0000, 2);
  }

  lemma {:induction false} ConcatSplit(items: seq<seq<u8>>, i: nat, r: seq<u8>)
    requires i <= |items|
    ensures Concat(items, r) == Concat(items[..i], Concat(items[i..], r))
  {
    if 0 < i {
      ConcatSplit(items[1..], i - 1, r);
      assert items[..i][1..] == items[1..][..i - 1] && items[1..][i - 1..] == items[i..];
    } else {
      assert items[0..] == items;
    }
  }

  /** Item i of a list of items of one size. */
  lemma ConcatAt(items: seq<seq<u8>>, w: nat, r: seq<u8>, i: nat)
    requires i < |items| && forall k :: 0 <= k < |items| ==> |items[k]| == w
    ensures var x := w * i; x + w <= |Concat(items, r)| && Concat(items, r)[x..x + w] == items[i]
  {
    var x := w * i;
    var rest, behind := Concat(items[i..], r), Concat(items[i + 1..], r);
    ConcatSplit(items, i, r);
    ConcatTail(items[..i], w, rest);
    assert items[i..][1..] == items[i + 1..];
    At(Concat(items, r), x, items[i], behind);
  }

  lemma PartOfRest(b: seq<u8>, k: nat, x: nat, y: nat)
    requires k <= |b| && x <= y <= |b| - k
    ensures b[k..][x..y] == b[k + x..k + y] && b[k..][y..] == b[k + y..]
  {
  }

  /** A list of items of size w, item i of it starting at k + w * i. */
  ghost predicate HasItems(b: seq<u8>, k: nat, items: seq<seq<u8>>, w: nat) {
    forall i :: 0 <= i < |items| ==> k + w * i + w <= |b| && b[k + w * i..k + w * i + w] == items[i]
  }

  /** A list of items of size w, n bytes in all, from position k of b on, with r behind it. */
  lemma ListAt(b: seq<u8>, k: nat, items: seq<seq<u8>>, w: nat, n: nat, r: seq<u8>)
    requires k <= |b| && b[k..] == Concat(items, r) && n == w * |items|
    requires forall i :: 0 <= i < |items| ==> |items[i]| == w
    ensures |b| == k + n + |r| && b[k + n..] == r
    ensures HasItems(b, k, items, w)
  {
    ConcatTail(items, w, r);
    PartOfRest(b, k, 0, n);
    forall i | 0 <= i < |items|
      ensures k + w * i + w <= |b| && b[k + w * i..k + w * i + w] == items[i]
    {
      var x := w * i;
      ConcatAt(items, w, r, i);
      PartOfRest(b, k, x, x + w);
    }
  }

  /** A one-byte count at position k of b, and the items behind it, with r behind them. */
  lemma CountedAt(b: seq<u8>, k: nat, count: u8, items: seq<seq<u8>>, w: nat, n: nat, r: seq<u8>)
    requires k <= |b| && b[k..] == Le(count, 1) + Concat(items, r) && n == w * |items|
    requires forall i :: 0 <= i < |items| ==> |items[i]| == w
    ensures |b| == k + 1 + n + |r| && b[k] == count && b[k + 1 + n..] == r
    ensures HasItems(b, k + 1, items, w)
  {
    CountAt(b, k, count, Concat(items, r));
    ListAt(b, k + 1, items, w, n, r);
  }

  lemma CountAt(b: seq<u8>, k: nat, count: u8, r: seq<u8>)
    requires k <= |b| && b[k..] == Le(count, 1) + r
    ensures k < |b| && b[k] == count && b[k + 1..] == r
  {
    LeBytes(count);
    At(b, k, Le(count, 1), r);
    assert b[k] == b[k..k + 1][0];
  }

  // ---------------------------------------------------------------- the peer list as it is written

  /**
   For every pair of lists: the number of super peers and these, 8 bytes each; the number of peers;
   as many of these as there are super peers, 20 bytes each; and the address of the peer itself.
   */
  lemma PeersLayout(m: Message, behind: seq<Raw20>)
    requires m.Ts2NpPeers? && Sendable(m) && |m.spAddrs| <= |m.peerAddrs| + |behind|
    ensures var b, n := PeersWritten(m, behind, []), |m.spAddrs|;
            var p := 1 + 8 * n;
            && |b| == p + 1 + 20 * n + 8
            && b[0] == n && HasItems(b, 1, m.spAddrs, 8)
            && b[p] == |m.peerAddrs| && HasItems(b, p + 1, (m.peerAddrs + behind)[..n], 20)
            && b[p + 1 + 20 * n..] == m.npAddr
  {
    var b := PeersWritten(m, behind, []);
    var some: seq<seq<u8>> := (m.peerAddrs + behind)[..|m.spAddrs|];
    assert m.npAddr + [] == m.npAddr && b[0..] == b;
    CountedAt(b, 0, |m.spAddrs|, m.spAddrs, 8, 8 * |m.spAddrs|, Le(|m.peerAddrs|, 1) + Concat(some, m.npAddr));
    CountedAt(b, 1 + 8 * |m.spAddrs|, |m.peerAddrs|, some, 20, 20 * |m.spAddrs|, m.npAddr);
  }

  // ---------------------------------------------------------------- the front of every message

  lemma HeaderLayout(size: nat, kind: u8, fields: seq<u8>)
    requires size <= 0x7fff_ffff
    ensures var b := Le(size, 4) + (Le(kind, 1) + fields);
            5 <= |b| && FromLe(b[..4]) == size && b[4] == kind && b[5..] == fields
  {
    var b := Le(size, 4) + (Le(kind, 1) + fields);
    Widths();
    FromLeOfLe(size, 4);
    assert b[..4] == Le(size, 4);
    CountAt(b, 4, kind, fields);
  }

  /** What is packed: its length, its type, and its fields. */
  lemma ImageLayout(m: Message)
    requires Sendable(m) && Contained(m)
    ensures var b := Image(m);
            5 <= |b| && FromLe(b[..4]) == ReservedSize(m) && b[4] == Tag(m) && b[5..] == Fields(m)
  {
    HeaderLayout(ReservedSize(m), Tag(m), Fields(m));
  }

  /** The peer list in the packed buffer, for every list of super peers that is not the longer one. */
  lemma PackedPeersLayout(m: Message)
    requires m.Ts2NpPeers? && Sendable(m) && Contained(m)
    ensures var b, n := Image(m), |m.spAddrs|;
            var p := 6 + 8 * n;
            && |b| == p + 1 + 20 * n + 8
            && b[4] == 0x37 && b[5] == n && HasItems(b[5..], 1, m.spAddrs, 8)
            && b[p] == |m.peerAddrs| && HasItems(b[5..], p - 4, m.peerAddrs[..n], 20)
            && b[p + 1 + 20 * n..] == m.npAddr
  {
    var b, n := Image(m), |m.spAddrs|;
    ImageLayout(m);
    PeersLayout(m, []);
    assert (m.peerAddrs + [])[..n] == m.peerAddrs[..n];
    assert b[5] == b[5..][0] && b[6 + 8 * n] == b[5..][1 + 8 * n];
    assert b[5..][2 + 8 * n + 20 * n..] == b[7 + 8 * n + 20 * n..];
  }

  // ---------------------------------------------------------------- the fields of the other messages

  lemma RegisterLayout(m: Message)
    requires m.Sp2TsRegister?
    ensures var b := Body(m, []);
            |b| == 38 && FromLe(b[..4]) == m.userId && b[4..36] == m.password && FromLe(b[36..38]) == m.servicePort
  {
    var b := Body(m, []);
    Widths();
    FromLeOfLe(m.userId, 4);
    FromLeOfLe(m.servicePort, 2);
    assert b[0..] == b;
    At(b, 0, Le(m.userId, 4), m.password + (Le(m.servicePort, 2) + []));
    At(b, 4, m.password, Le(m.servicePort, 2) + []);
    At(b, 36, Le(m.servicePort, 2), []);
  }

  lemma StatusLayout(m: Message)
    requires m.Sp2TsStatus?
    ensures var b := Body(m, []);
            && |b| == 27 && b[..16] == m.spUuid && FromLe(b[16..20]) == m.resourceCount
            && FromLe(b[20..22]) == m.connectionNum && b[22..26] == m.bandwidth && b[26] == m.exceedMaxConnection
  {
    var b := Body(m, []);
    Widths();
    FromLeOfLe(m.resourceCount, 4);
    FromLeOfLe(m.connectionNum, 2);
    LeBytes(m.exceedMaxConnection);
    var exceed := Le(m.exceedMaxConnection, 1) + [];
    assert b[0..] == b;
    At(b, 0, m.spUuid, Le(m.resourceCount, 4) + (Le(m.connectionNum, 2) + (m.bandwidth + exceed)));
    At(b, 16, Le(m.resourceCount, 4), Le(m.connectionNum, 2) + (m.bandwidth + exceed));
    At(b, 20, Le(m.connectionNum, 2), m.bandwidth + exceed);
    At(b, 22, m.bandwidth, exceed);
    assert b[26] == b[26..][0];
  }

  lemma SpListLayout(m: Message)
    requires m.Ts2SpSpList? && Sendable(m)
    ensures var b := Body(m, []); |b| == 1 + 8 * |m.addrs| && b[0] == |m.addrs| && HasItems(b, 1, m.addrs, 8)
  {
    var b := Body(m, []);
    assert b[0..] == b;
    CountedAt(b, 0, |m.addrs|, m.addrs, 8, 8 * |m.addrs|, []);
  }

  lemma LoginLayout(m: Message)
    requires m.Np2TsLogin? && Sendable(m)
    ensures var b := Body(m, []);
            && |b| == 43 + 4 * |m.ips| && FromLe(b[..4]) == m.loginId && b[4..36] == m.password
            && b[36..40] == m.clientVersion && FromLe(b[40..42]) == m.listeningPort
            && b[42] == |m.ips| && HasItems(b, 43, m.ips, 4)
  {
    var b := Body(m, []);
    Widths();
    FromLeOfLe(m.loginId, 4);
    FromLeOfLe(m.listeningPort, 2);
    var ips := Le(|m.ips|, 1) + Concat(m.ips, []);
    assert b[0..] == b;
    At(b, 0, Le(m.loginId, 4), m.password + (m.clientVersion + (Le(m.listeningPort, 2) + ips)));
    At(b, 4, m.password, m.clientVersion + (Le(m.listeningPort, 2) + ips));
    At(b, 36, m.clientVersion, Le(m.listeningPort, 2) + ips);
    At(b, 40, Le(m.listeningPort, 2), ips);
    CountedAt(b, 42, |m.ips|, m.ips, 4, 4 * |m.ips|, []);
  }

  /** One resource on the wire: the hash, the first block and the number of blocks. */
  function ResourceBytes(x: Resource): (b: seq<u8>)
    ensures |b| == 40
  {
    x.md5 + Le(x.start, 4) + Le(x.size, 4)
  }

  function AllResourceBytes(rs: seq<Resource>): (items: seq<seq<u8>>)
    ensures |items| == |rs| && forall i :: 0 <= i < |rs| ==> items[i] == ResourceBytes(rs[i])
  {
    seq(|rs|, i requires 0 <= i < |rs| => ResourceBytes(rs[i]))
  }

  lemma {:induction false} ResourcesAreItems(rs: seq<Resource>, r: seq<u8>)
    ensures ResourceItems(rs, r) == Concat(AllResourceBytes(rs), r)
  {
    if rs != [] {
      ResourcesAreItems(rs[1..], r);
      assert AllResourceBytes(rs)[1..] == AllResourceBytes(rs[1..]);
    }
  }

  lemma ResListLayout(m: Message)
    requires m.Sp2TsResList? && Sendable(m)
    ensures var b := Body(m, []);
            && |b| == 20 + 40 * |m.resources| && b[..16] == m.spUuid && FromLe(b[16..20]) == |m.resources|
            && HasItems(b, 20, AllResourceBytes(m.resources), 40)
  {
    var b := Body(m, []);
    var items := ResourceItems(m.resources, []);
    Widths();
    FromLeOfLe(|m.resources|, 4);
    ResourcesAreItems(m.resources, []);
    assert b[0..] == b;
    At(b, 0, m.spUuid, Le(|m.resources|, 4) + items);
    At(b, 16, Le(|m.resources|, 4), items);
    ListAt(b, 20, AllResourceBytes(m.resources), 40, 40 * |m.resources|, []);
  }

  /** A field of 16 bytes and another one. */
  lemma TwoFields(b: seq<u8>, first: Raw16, second: seq<u8>)
    requires b == first + (second + [])
    ensures |b| == 16 + |second| && b[..16] == first && b[16..] == second
  {
  }

  lemma ShortLayouts(m: Message)
    ensures m.Ts2SpWelcome? ==> Body(m, []) == m.spUuid
    ensures m.Np2TsReqRes? ==> var b := Body(m, []); |b| == 48 && b[..16] == m.uuid && b[16..] == m.resourceMd5
    ensures m.Np2TsNeedPeers? ==>
              var b := Body(m, []); |b| == 20 && b[..16] == m.uuid && FromLe(b[16..]) == m.currentBlock
    ensures m.Ts2NpWelcome? ==> var b := Body(m, []); |b| == 32 && b[..16] == m.uuid && b[16..] == m.peerIp
    ensures m.Ts2NpResInterval? ==> Body(m, []) == m.interval
  {
    Widths();
    match m
    case Np2TsReqRes(uuid, md5) => TwoFields(Body(m, []), uuid, md5);
    case Np2TsNeedPeers(uuid, block) =>
      FromLeOfLe(block, 4);
      TwoFields(Body(m, []), uuid, Le(block, 4));
    case Ts2NpWelcome(uuid, ip) => TwoFields(Body(m, []), uuid, ip);
    case _ =>
  }

  /** The type byte of each message. */
  lemma TypeBytes(m: Message)
    requires Sendable(m) && Contained(m)
    ensures Image(m)[4] == match m
            case Sp2TsRegister(_, _, _) => 32
            case Sp2TsStatus(_, _, _, _, _) => 33
            case Sp2TsResList(_, _) => 34
            case Ts2SpWelcome(_) => 37
            case Ts2SpSpList(_) => 39
            case Np2TsLogin(_, _, _, _, _) => 48
            case Np2TsReqRes(_, _) => 49
            case Np2TsNeedPeers(_, _) => 51
            case Ts2NpWelcome(_, _) => 54
            case Ts2NpPeers(_, _, _) => 55
            case Ts2NpResInterval(_) => 56
  {
    ImageLayout(m);
  }
}
