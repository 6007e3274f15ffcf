/**
 Serving a channel to many peers while the capture server keeps writing. Every thread runs
 until it writes to its socket, so a step is one write round, one push list up to its first
 socket write, or the packing of one block. The states carry the ring of `Rings` itself; `writes`
 and `log` only record what happened.
 */
module Serving {
  import opened Words
  import opened Modular
  import opened Rings
  import opened SourceManagers

  datatype Channel = Channel(header: seq<u8>, ring: Ring, writes: seq<Write>)

  datatype Packed =
    | MediaType(hash: Hash, header: seq<u8>)
    | Response(push: nat, hash: Hash, id: u32, data: seq<u8>)

  /** One peer connection: its flag, the push list it is working on, and the messages it packed. */
  datatype Conn = Conn(mediaSent: bool, push: nat, hash: Hash, pending: seq<u32>, log: seq<Packed>)

  type ConnId = nat

  datatype State = State(channels: map<Hash, Channel>, conns: map<ConnId, Conn>)

  datatype Step =
    | Create(hash: Hash, ring: Ring)
    | SetHeader(hash: Hash, header: seq<u8>)
    | WriteBlock(hash: Hash, data: seq<u8>)
    | Connect(c: ConnId)
    | PushList(c: ConnId, hash: Hash, ids: seq<u32>, sorted: seq<u32>)
    | PackNext(c: ConnId)

  predicate Ascending(ids: seq<u32>) {
    forall i, j :: 0 <= i < j < |ids| ==> ids[i] <= ids[j]
  }

  /** What the threads can do next; the capture server announces the write ordinals as ids. */
  ghost predicate Enabled(s: State, step: Step) {
    match step
    case Create(hash, ring) => exists n :: Reserved(ring, n)
    case SetHeader(hash, header) => true
    case WriteBlock(hash, data) =>
      hash in s.channels && |data| <= MEDIA_BLOCK_SIZE && Ready(s.channels[hash].ring)
    case Connect(c) => c !in s.conns
    case PushList(c, hash, ids, sorted) =>
      c in s.conns && s.conns[c].pending == [] && Ascending(sorted) && multiset(sorted) == multiset(ids)
    case PackNext(c) =>
      && c in s.conns && s.conns[c].pending != []
      && (s.conns[c].hash in s.channels ==> Ready(s.channels[s.conns[c].hash].ring))
  }

  ghost predicate Ready(r: Ring) {
    r.WellFormed() && |r.slots[r.queueIndex].buffer| == MEDIA_BLOCK_SIZE
  }

  function CreateChannel(s: State, hash: Hash, ring: Ring): State {
    if hash in s.channels then s else s.(channels := s.channels[hash := Channel([], ring, [])])
  }

  function StoreBlock(ch: Channel, data: seq<u8>): Channel
    requires ch.ring.WellFormed() && |data| <= |ch.ring.slots[ch.ring.queueIndex].buffer|
  {
    var w := Write(|ch.writes|, data);
    ch.(ring := Round(ch.ring, w), writes := ch.writes + [w])
  }

  /** The media type goes out first; without the channel nothing does, and no thread switch happens. */
  function BeginPush(s: State, conn: Conn, hash: Hash, sorted: seq<u32>): Conn {
    var next := conn.(push := conn.push + 1, hash := hash);
    if conn.mediaSent then
      next.(pending := sorted)
    else if hash in s.channels then
      next.(mediaSent := true, pending := sorted, log := conn.log + [MediaType(hash, s.channels[hash].header)])
    else
      next
  }

  /** A block that is not found is skipped. */
  function PackBlock(s: State, conn: Conn): Conn
    requires conn.pending != []
    requires conn.hash in s.channels ==> s.channels[conn.hash].ring.WellFormed()
  {
    var id := conn.pending[0];
    var rest := conn.(pending := conn.pending[1..]);
    if conn.hash !in s.channels then
      rest
    else
      match Lookup(s.channels[conn.hash].ring, AsInt32(id))
      case None => rest
      case Some(bytes) => rest.(log := conn.log + [Response(conn.push, conn.hash, id, bytes)])
  }

  ghost function Apply(s: State, step: Step): State
    requires Enabled(s, step)
  {
    match step
    case Create(hash, ring) => CreateChannel(s, hash, ring)
    case SetHeader(hash, header) =>
      if hash in s.channels then
        s.(channels := s.channels[hash := s.channels[hash].(header := header)])
      else
        s
    case WriteBlock(hash, data) => s.(channels := s.channels[hash := StoreBlock(s.channels[hash], data)])
    case Connect(c) => s.(conns := s.conns[c := Conn(false, 0, "", [], [])])
    case PushList(c, hash, ids, sorted) => s.(conns := s.conns[c := BeginPush(s, s.conns[c], hash, sorted)])
    case PackNext(c) => s.(conns := s.conns[c := PackBlock(s, s.conns[c])])
  }

  // ---------------------------------------------------------------- what every state keeps

  ghost predicate ChannelOk(ch: Channel) {
    Window(ch.ring, ch.writes) && forall i :: 0 <= i < |ch.writes| ==> ch.writes[i].id == i
  }

  /** A response carries the bytes that were written for its id. */
  ghost predicate Faithful(s: State, p: Packed) {
    p.Response? ==>
      && p.hash in s.channels
      && p.id < |s.channels[p.hash].writes|
      && s.channels[p.hash].writes[p.id].data <= p.data
  }

  ghost predicate InOrder(p: Packed, q: Packed) {
    p.Response? && q.Response? ==> p.push <= q.push && (p.push == q.push ==> p.id <= q.id)
  }

  ghost predicate LogOk(s: State, log: seq<Packed>) {
    && (log != [] ==> log[0].MediaType?)
    && (forall i :: 0 <= i < |log| ==> Faithful(s, log[i]))
    && (forall i, j :: 0 <= i < j < |log| ==> InOrder(log[i], log[j]))
  }

  /** What is still to be packed comes after everything packed for the same push list. */
  ghost predicate Ahead(conn: Conn, p: Packed) {
    p.Response? ==>
      && p.push <= conn.push
      && (p.push == conn.push ==> forall k :: 0 <= k < |conn.pending| ==> p.id <= conn.pending[k])
  }

  ghost predicate ConnOk(s: State, conn: Conn) {
    && LogOk(s, conn.log)
    && (conn.mediaSent <==> conn.log != [])
    && (conn.pending != [] ==> conn.mediaSent)
    && Ascending(conn.pending)
    && forall i :: 0 <= i < |conn.log| ==> Ahead(conn, conn.log[i])
  }

  ghost predicate Inv(s: State) {
    && (forall h :: h in s.channels ==> ChannelOk(s.channels[h]))
    && (forall c :: c in s.conns ==> ConnOk(s, s.conns[c]))
  }

  /** Channels only gain writes. */
  ghost predicate Grows(s: State, t: State) {
    forall h :: h in s.channels ==> h in t.channels && s.channels[h].writes <= t.channels[h].writes
  }

  lemma ConnSurvives(s: State, t: State, conn: Conn)
    requires Grows(s, t) && ConnOk(s, conn)
    ensures ConnOk(t, conn)
  {
    forall i | 0 <= i < |conn.log|
      ensures Faithful(t, conn.log[i])
    {
      assert Faithful(s, conn.log[i]);
    }
  }

  lemma ChannelsChange(s: State, t: State)
    requires Inv(s) && t.conns == s.conns && Grows(s, t)
    requires forall h :: h in t.channels ==> ChannelOk(t.channels[h])
    ensures Inv(t)
  {
    forall c | c in t.conns
      ensures ConnOk(t, t.conns[c])
    {
      ConnSurvives(s, t, s.conns[c]);
    }
  }

  lemma ConnChanges(s: State, c: ConnId, conn: Conn)
    requires Inv(s) && ConnOk(s, conn)
    ensures Inv(s.(conns := s.conns[c := conn]))
  {
    var t := s.(conns := s.conns[c := conn]);
    forall d | d in t.conns
      ensures ConnOk(t, t.conns[d])
    {
      ConnSurvives(s, t, t.conns[d]);
    }
  }

  lemma StoreKeeps(ch: Channel, data: seq<u8>)
    requires ChannelOk(ch) && |data| <= MEDIA_BLOCK_SIZE
    ensures ch.ring.WellFormed() && |data| <= |ch.ring.slots[ch.ring.queueIndex].buffer|
    ensures ChannelOk(StoreBlock(ch, data)) && ch.writes <= StoreBlock(ch, data).writes
  {
    RoundKeepsWindow(ch.ring, ch.writes, Write(|ch.writes|, data));
  }

  lemma AppendOk(s: State, log: seq<Packed>, p: Packed)
    requires LogOk(s, log) && Faithful(s, p) && (log == [] ==> p.MediaType?)
    requires forall i :: 0 <= i < |log| ==> InOrder(log[i], p)
    ensures LogOk(s, log + [p])
  {
  }

  lemma BeginKeeps(s: State, conn: Conn, hash: Hash, sorted: seq<u32>)
    requires ConnOk(s, conn) && conn.pending == [] && Ascending(sorted)
    ensures ConnOk(s, BeginPush(s, conn, hash, sorted))
  {
    var next := BeginPush(s, conn, hash, sorted);
    if !conn.mediaSent && hash in s.channels {
      AppendOk(s, conn.log, MediaType(hash, s.channels[hash].header));
    }
    forall i | 0 <= i < |next.log|
      ensures Ahead(next, next.log[i])
    {
      assert i < |conn.log| ==> Ahead(conn, conn.log[i]);
    }
  }

  /** The block is among the last writes to its channel, as many as the ring has slots. */
  ghost predicate InWindow(s: State, hash: Hash, id: int) {
    && hash in s.channels
    && var ch := s.channels[hash]; Max(0, |ch.writes| - |ch.ring.slots|) <= id < |ch.writes|
  }

  /** What the next block of a push list is answered with: a response if the block is in the window. */
  ghost function Answer(s: State, conn: Conn): seq<Packed>
    requires conn.pending != []
  {
    var id := conn.pending[0];
    if InWindow(s, conn.hash, AsInt32(id)) && 0 < |s.channels[conn.hash].ring.slots| then
      var slots := s.channels[conn.hash].ring.slots;
      [Response(conn.push, conn.hash, id, slots[Residue(id, |slots|)].buffer)]
    else
      []
  }

  /** The next block is taken off the push list and answered exactly if it is in the window. */
  lemma PackAnswers(s: State, conn: Conn)
    requires Inv(s) && conn.pending != []
    ensures conn.hash in s.channels ==>
              s.channels[conn.hash].ring.WellFormed() && 0 < |s.channels[conn.hash].ring.slots|
    ensures PackBlock(s, conn) == conn.(pending := conn.pending[1..], log := conn.log + Answer(s, conn))
    ensures Answer(s, conn) != [] <==> InWindow(s, conn.hash, AsInt32(conn.pending[0]))
    ensures forall p :: p in Answer(s, conn) ==> Faithful(s, p)
  {
    if conn.hash in s.channels {
      var ch := s.channels[conn.hash];
      assert ChannelOk(ch);
      WindowLookup(ch.ring, ch.writes, AsInt32(conn.pending[0]));
    }
  }

  lemma PackKeeps(s: State, conn: Conn)
    requires Inv(s) && ConnOk(s, conn) && conn.pending != []
    ensures conn.hash in s.channels ==> s.channels[conn.hash].ring.WellFormed()
    ensures ConnOk(s, PackBlock(s, conn)) && PackBlock(s, conn).log == conn.log + Answer(s, conn)
  {
    PackAnswers(s, conn);
    if Answer(s, conn) != [] {
      var p := Answer(s, conn)[0];
      forall i | 0 <= i < |conn.log|
        ensures InOrder(conn.log[i], p)
      {
        assert Ahead(conn, conn.log[i]);
      }
      AppendOk(s, conn.log, p);
    }
    PackedAhead(s, conn);
  }

  lemma PackedAhead(s: State, conn: Conn)
    requires ConnOk(s, conn) && conn.pending != []
    requires conn.hash in s.channels ==> s.channels[conn.hash].ring.WellFormed()
    ensures var next := PackBlock(s, conn);
            forall i :: 0 <= i < |next.log| ==> Ahead(next, next.log[i])
  {
    var next := PackBlock(s, conn);
    forall i | 0 <= i < |next.log|
      ensures Ahead(next, next.log[i])
    {
      assert i < |conn.log| ==> Ahead(conn, conn.log[i]);
    }
  }

  lemma {:induction false} StepKeepsInv(s: State, step: Step)
    requires Inv(s) && Enabled(s, step)
    ensures Inv(Apply(s, step)) && Grows(s, Apply(s, step))
  {
    var t := Apply(s, step);
    match step {
      case Create(hash, ring) =>
        var n :| Reserved(ring, n);
        RunIsWindow(ring, n, []);
        ChannelsChange(s, t);
      case SetHeader(hash, header) =>
        ChannelsChange(s, t);
      case WriteBlock(hash, data) =>
        StoreKeeps(s.channels[hash], data);
        ChannelsChange(s, t);
      case Connect(c) =>
        ConnChanges(s, c, Conn(false, 0, "", [], []));
      case PushList(c, hash, ids, sorted) =>
        BeginKeeps(s, s.conns[c], hash, sorted);
        ConnChanges(s, c, t.conns[c]);
      case PackNext(c) =>
        PackKeeps(s, s.conns[c]);
        ConnChanges(s, c, t.conns[c]);
    }
  }

  // ---------------------------------------------------------------- every run

  ghost predicate Run(s: State, steps: seq<Step>, t: State)
    decreases |steps|
  {
    if steps == [] then s == t else Enabled(s, steps[0]) && Run(Apply(s, steps[0]), steps[1..], t)
  }

  const INITIAL := State(map[], map[])

  lemma {:induction false} RunKeepsInv(s: State, steps: seq<Step>, t: State)
    requires Inv(s) && Run(s, steps, t)
    ensures Inv(t)
    decreases |steps|
  {
    if steps != [] {
      StepKeepsInv(s, steps[0]);
      RunKeepsInv(Apply(s, steps[0]), steps[1..], t);
    }
  }

  /** These steps are possible in every state. */
  lemma AlwaysPossible(s: State)
    ensures forall c, g, ids, sorted ::
              c in s.conns && s.conns[c].pending == [] && Ascending(sorted) && multiset(sorted) == multiset(ids) ==>
                Enabled(s, PushList(c, g, ids, sorted))
    ensures forall g, ring, n :: Reserved(ring, n) ==> Enabled(s, Create(g, ring))
    ensures forall g, header :: Enabled(s, SetHeader(g, header))
    ensures forall c :: c !in s.conns ==> Enabled(s, Connect(c))
  {
  }

  /** In every state that a run can reach every ring is ready, so that guard never holds up a step. */
  lemma AlwaysReady(s: State, steps: seq<Step>, hash: Hash)
    requires Run(INITIAL, steps, s) && hash in s.channels
    ensures Ready(s.channels[hash].ring)
    ensures forall data :: |data| <= MEDIA_BLOCK_SIZE ==> Enabled(s, WriteBlock(hash, data))
    ensures forall c :: c in s.conns && s.conns[c].pending != [] ==> Enabled(s, PackNext(c))
  {
    RunKeepsInv(INITIAL, steps, s);
    forall h | h in s.channels
      ensures Ready(s.channels[h].ring)
    {
      assert ChannelOk(s.channels[h]);
    }
  }

  /**
   In every run, on every connection: the media type is packed first, every response carries the
   bytes written for its id, and the responses to one push list come in non-decreasing id order.
   */
  lemma ServingIsSafe(s: State, steps: seq<Step>, c: ConnId)
    requires Run(INITIAL, steps, s) && c in s.conns
    ensures var log := s.conns[c].log;
            && (log != [] ==> log[0].MediaType?)
            && (forall i :: 0 <= i < |log| && log[i].Response? ==>
                  && log[i].hash in s.channels
                  && log[i].id < |s.channels[log[i].hash].writes|
                  && s.channels[log[i].hash].writes[log[i].id].data <= log[i].data)
            && (forall i, j ::
                  0 <= i < j < |log| && log[i].Response? && log[j].Response? && log[i].push == log[j].push ==>
                    log[i].id <= log[j].id)
  {
    RunKeepsInv(INITIAL, steps, s);
    assert ConnOk(s, s.conns[c]);
    var log := s.conns[c].log;
    forall i | 0 <= i < |log| && log[i].Response?
      ensures log[i].hash in s.channels && log[i].id < |s.channels[log[i].hash].writes|
      ensures s.channels[log[i].hash].writes[log[i].id].data <= log[i].data
    {
      assert Faithful(s, log[i]);
    }
    forall i, j | 0 <= i < j < |log| && log[i].Response? && log[j].Response? && log[i].push == log[j].push
      ensures log[i].id <= log[j].id
    {
      assert InOrder(log[i], log[j]);
    }
  }

  // ---------------------------------------------------------------- what every step does

  /** Only connection c may have changed. */
  ghost predicate OnlyConn(s: State, t: State, c: ConnId) {
    && t.channels == s.channels && t.conns.Keys == s.conns.Keys + {c}
    && forall d :: d in s.conns && d != c ==> t.conns[d] == s.conns[d]
  }

  /** Only channel h may have changed. */
  ghost predicate OnlyChannel(s: State, t: State, h: Hash) {
    && t.conns == s.conns
    && forall g :: g != h ==>
         (g in t.channels <==> g in s.channels) && (g in s.channels ==> t.channels[g] == s.channels[g])
  }

  /** The media type that a push list for the channel calls for. */
  function MediaTypeDue(s: State, c: ConnId, hash: Hash): seq<Packed>
    requires c in s.conns
  {
    if !s.conns[c].mediaSent && hash in s.channels then [MediaType(hash, s.channels[hash].header)] else []
  }

  /**
   A push list is taken up as it was sent, in ascending order, unless there is no media type to send
   before it; the media type is packed exactly if it was not before and the channel is known.
   */
  lemma PushListIsTakenUp(s: State, c: ConnId, hash: Hash, ids: seq<u32>, sorted: seq<u32>)
    requires Enabled(s, PushList(c, hash, ids, sorted))
    ensures var t := Apply(s, PushList(c, hash, ids, sorted));
            var was, conn := s.conns[c], t.conns[c];
            && OnlyConn(s, t, c)
            && conn.hash == hash && conn.push == was.push + 1
            && conn.log == was.log + MediaTypeDue(s, c, hash)
            && (conn.mediaSent <==> was.mediaSent || hash in s.channels)
            && conn.pending == (if was.mediaSent || hash in s.channels then sorted else [])
            && Ascending(sorted) && multiset(sorted) == multiset(ids)
  {
  }

  /** A write round appends one write, under the next ordinal, and from then on its block is found. */
  lemma WriteIsStored(s: State, hash: Hash, data: seq<u8>)
    requires Inv(s) && Enabled(s, WriteBlock(hash, data))
    ensures var t := Apply(s, WriteBlock(hash, data));
            && OnlyChannel(s, t, hash) && hash in t.channels
            && var was, ch := s.channels[hash], t.channels[hash];
               var k := |was.writes|;
               && ch.header == was.header && |ch.ring.slots| == |was.ring.slots|
               && ch.writes == was.writes + [Write(k, data)] && InWindow(t, hash, k)
               && ch.ring.WellFormed()
               && Lookup(ch.ring, k).Some? && data <= Lookup(ch.ring, k).value
  {
    var was := s.channels[hash];
    assert ChannelOk(was);
    var w := Write(|was.writes|, data);
    RoundKeepsWindow(was.ring, was.writes, w);
    WindowLookup(Round(was.ring, w), was.writes + [w], |was.writes|);
  }

  /** The remaining steps: a new channel, a channel's header, a new connection. */
  lemma OtherStepsDo(s: State, hash: Hash, ring: Ring, header: seq<u8>, c: ConnId)
    ensures Enabled(s, Create(hash, ring)) ==>
              var t := Apply(s, Create(hash, ring));
              && OnlyChannel(s, t, hash) && hash in t.channels
              && t.channels[hash] == (if hash in s.channels then s.channels[hash] else Channel([], ring, []))
    ensures var t := Apply(s, SetHeader(hash, header));
            && OnlyChannel(s, t, hash) && (hash in t.channels <==> hash in s.channels)
            && (hash in s.channels ==>
                  && t.channels[hash].header == header && t.channels[hash].ring == s.channels[hash].ring
                  && t.channels[hash].writes == s.channels[hash].writes)
    ensures Enabled(s, Connect(c)) ==>
              var t := Apply(s, Connect(c));
              && OnlyConn(s, t, c) && c in t.conns
              && !t.conns[c].mediaSent && t.conns[c].pending == [] && t.conns[c].log == []
  {
  }

  /** Packing changes nothing but the connection's list and log. */
  lemma PackIsAnswer(s: State, c: ConnId)
    requires Inv(s) && Enabled(s, PackNext(c))
    ensures var t := Apply(s, PackNext(c));
            && OnlyConn(s, t, c)
            && var was := s.conns[c];
               t.conns[c] == was.(pending := was.pending[1..], log := was.log + Answer(s, was))
  {
    PackAnswers(s, s.conns[c]);
  }

  // ---------------------------------------------------------------- every requested block has one turn

  function TurnOf(step: Step, c: ConnId): nat {
    if step == PackNext(c) then 1 else 0
  }

  /** How often the connection packs a block. */
  function TurnsOf(steps: seq<Step>, c: ConnId): nat {
    if steps == [] then 0 else TurnOf(steps[0], c) + TurnsOf(steps[1..], c)
  }

  ghost predicate NoNewList(steps: seq<Step>, c: ConnId) {
    forall i :: 0 <= i < |steps| ==> !(steps[i].PushList? && steps[i].c == c)
  }

  ghost function StepAnswer(s: State, step: Step, c: ConnId): seq<Packed>
    requires c in s.conns && Enabled(s, step)
  {
    if step == PackNext(c) then Answer(s, s.conns[c]) else []
  }

  /** The answers that the connection's turns in a run call for, each in the state of its turn. */
  ghost function Answers(s: State, steps: seq<Step>, c: ConnId): seq<Packed>
    decreases |steps|
  {
    if steps == [] || !Enabled(s, steps[0]) || c !in s.conns then
      []
    else
      StepAnswer(s, steps[0], c) + Answers(Apply(s, steps[0]), steps[1..], c)
  }

  /** From s to t the connection has taken n blocks off its list and packed these answers. */
  ghost predicate Served(s: State, t: State, c: ConnId, n: nat, answers: seq<Packed>) {
    && c in s.conns && c in t.conns
    && n <= |s.conns[c].pending| && t.conns[c].pending == s.conns[c].pending[n..]
    && t.conns[c].log == s.conns[c].log + answers
  }

  lemma ServedOn(s: State, u: State, t: State, c: ConnId, n: nat, m: nat, a: seq<Packed>, b: seq<Packed>)
    requires Served(s, u, c, n, a) && Served(u, t, c, m, b)
    ensures Served(s, t, c, n + m, a + b)
  {
  }

  lemma StepServes(s: State, step: Step, c: ConnId)
    requires Inv(s) && Enabled(s, step) && c in s.conns && !(step.PushList? && step.c == c)
    ensures Served(s, Apply(s, step), c, TurnOf(step, c), StepAnswer(s, step, c))
  {
    if step == PackNext(c) {
      PackIsAnswer(s, c);
    } else {
      OtherStepLeaves(s, step, c);
    }
  }

  /**
   While a push list is worked on, whatever else happens: every turn takes the next block off the
   list, once, and packs a response for it exactly if the block is in the window at that moment.
   */
  lemma {:induction false} ListIsServed(s: State, steps: seq<Step>, t: State, c: ConnId)
    requires Inv(s) && Run(s, steps, t) && c in s.conns && NoNewList(steps, c)
    ensures Served(s, t, c, TurnsOf(steps, c), Answers(s, steps, c))
    decreases |steps|
  {
    if steps != [] {
      var u, rest := Apply(s, steps[0]), steps[1..];
      StepKeepsInv(s, steps[0]);
      StepServes(s, steps[0], c);
      ListIsServed(u, rest, t, c);
      ServedOn(s, u, t, c, TurnOf(steps[0], c), TurnsOf(rest, c), StepAnswer(s, steps[0], c), Answers(u, rest, c));
    }
  }

  /** A turn of a connection: the block that is next, and whether it is in the window at that moment. */
  datatype Turn = Turn(id: u32, inWindow: bool)

  ghost function StepTurn(s: State, step: Step, c: ConnId): seq<Turn>
    requires c in s.conns && Enabled(s, step)
  {
    if step == PackNext(c) then
      var id := s.conns[c].pending[0];
      [Turn(id, InWindow(s, s.conns[c].hash, AsInt32(id)))]
    else
      []
  }

  /** The turns that the connection has in a run. */
  ghost function TurnsTaken(s: State, steps: seq<Step>, c: ConnId): seq<Turn>
    decreases |steps|
  {
    if steps == [] || !Enabled(s, steps[0]) || c !in s.conns then
      []
    else
      StepTurn(s, steps[0], c) + TurnsTaken(Apply(s, steps[0]), steps[1..], c)
  }

  function IdsOf(turns: seq<Turn>): (ids: seq<u32>)
    ensures |ids| == |turns| && forall i :: 0 <= i < |ids| ==> ids[i] == turns[i].id
  {
    seq(|turns|, i requires 0 <= i < |turns| => turns[i].id)
  }

  /** The messages are responses, one after the other, for the blocks that were in the window. */
  predicate RespondTo(ps: seq<Packed>, turns: seq<Turn>)
    decreases |turns|
  {
    if turns == [] then ps == []
    else if turns[0].inWindow then
      ps != [] && ps[0].Response? && ps[0].id == turns[0].id && RespondTo(ps[1..], turns[1..])
    else RespondTo(ps, turns[1..])
  }

  lemma StepResponds(s: State, step: Step, c: ConnId, ps: seq<Packed>, turns: seq<Turn>)
    requires Inv(s) && Enabled(s, step) && c in s.conns && RespondTo(ps, turns)
    ensures RespondTo(StepAnswer(s, step, c) + ps, StepTurn(s, step, c) + turns)
  {
    var answer, turn := StepAnswer(s, step, c), StepTurn(s, step, c);
    if step == PackNext(c) {
      PackAnswers(s, s.conns[c]);
      assert (turn + turns)[1..] == turns;
      if turn[0].inWindow {
        assert (answer + ps)[1..] == ps;
      } else {
        assert answer + ps == ps;
      }
    } else {
      assert answer + ps == ps && turn + turns == turns;
    }
  }

  /** The answers respond to the turns whose block is in the window. */
  lemma {:induction false} AnswersRespond(s: State, steps: seq<Step>, t: State, c: ConnId)
    requires Inv(s) && Run(s, steps, t) && c in s.conns && NoNewList(steps, c)
    ensures RespondTo(Answers(s, steps, c), TurnsTaken(s, steps, c))
    decreases |steps|
  {
    if steps != [] {
      var u, rest := Apply(s, steps[0]), steps[1..];
      StepKeepsInv(s, steps[0]);
      StepServes(s, steps[0], c);
      AnswersRespond(u, rest, t, c);
      StepResponds(s, steps[0], c, Answers(u, rest, c), TurnsTaken(u, rest, c));
    }
  }

  /** The turns are those for the first n blocks of the connection's list. */
  ghost predicate Follows(s: State, c: ConnId, n: nat, turns: seq<Turn>) {
    c in s.conns && n <= |s.conns[c].pending| && IdsOf(turns) == s.conns[c].pending[..n]
  }

  lemma OneMoreTurn(ids: seq<u32>, turn: Turn, turns: seq<Turn>, n: nat)
    requires ids != [] && turn.id == ids[0] && n < |ids| && IdsOf(turns) == ids[1..][..n]
    ensures IdsOf([turn] + turns) == ids[..n + 1]
  {
    var all := IdsOf([turn] + turns);
    assert |turns| == n;
    forall i | 0 <= i < n + 1
      ensures all[i] == ids[i]
    {
      assert 0 < i ==> all[i] == turns[i - 1].id == IdsOf(turns)[i - 1] == ids[1..][i - 1];
    }
  }

  lemma StepTakes(s: State, step: Step, c: ConnId, n: nat, turns: seq<Turn>)
    requires Inv(s) && Enabled(s, step) && c in s.conns && !(step.PushList? && step.c == c)
    requires Follows(Apply(s, step), c, n, turns)
    ensures Follows(s, c, TurnOf(step, c) + n, StepTurn(s, step, c) + turns)
  {
    if step == PackNext(c) {
      PackIsAnswer(s, c);
      OneMoreTurn(s.conns[c].pending, StepTurn(s, step, c)[0], turns, n);
      assert StepTurn(s, step, c) == [StepTurn(s, step, c)[0]];
    } else {
      OtherStepLeaves(s, step, c);
      assert StepTurn(s, step, c) + turns == turns;
    }
  }

  lemma OtherStepLeaves(s: State, step: Step, c: ConnId)
    requires Enabled(s, step) && c in s.conns && step != PackNext(c) && !(step.PushList? && step.c == c)
    ensures c in Apply(s, step).conns && Apply(s, step).conns[c] == s.conns[c]
  {
  }

  /** The turns take the blocks in the order of the list. */
  lemma {:induction false} TurnsFollowList(s: State, steps: seq<Step>, t: State, c: ConnId)
    requires Inv(s) && Run(s, steps, t) && c in s.conns && NoNewList(steps, c)
    ensures Follows(s, c, TurnsOf(steps, c), TurnsTaken(s, steps, c))
    decreases |steps|
  {
    if steps != [] {
      var u, rest := Apply(s, steps[0]), steps[1..];
      StepKeepsInv(s, steps[0]);
      StepServes(s, steps[0], c);
      TurnsFollowList(u, rest, t, c);
      StepTakes(s, steps[0], c, TurnsOf(rest, c), TurnsTaken(u, rest, c));
    }
  }

  /**
   A push list is served as it was sent: once the connection has had as many turns as the list has
   entries, each entry has been taken once, in ascending order, and a response packed for it
   exactly if its block was in the window at that moment; before them came the media type, if due.
   */
  lemma PushListIsServed(s: State, c: ConnId, hash: Hash, ids: seq<u32>, sorted: seq<u32>, steps: seq<Step>, t: State)
    requires Inv(s) && Enabled(s, PushList(c, hash, ids, sorted)) && (s.conns[c].mediaSent || hash in s.channels)
    requires Run(Apply(s, PushList(c, hash, ids, sorted)), steps, t)
    requires NoNewList(steps, c) && TurnsOf(steps, c) == |ids|
    ensures var u := Apply(s, PushList(c, hash, ids, sorted));
            var turns := TurnsTaken(u, steps, c);
            && c in t.conns && t.conns[c].pending == []
            && multiset(IdsOf(turns)) == multiset(ids) && Ascending(IdsOf(turns))
            && t.conns[c].log == s.conns[c].log + MediaTypeDue(s, c, hash) + Answers(u, steps, c)
            && RespondTo(Answers(u, steps, c), turns)
  {
    var u := Apply(s, PushList(c, hash, ids, sorted));
    PushListIsTakenUp(s, c, hash, ids, sorted);
    StepKeepsInv(s, PushList(c, hash, ids, sorted));
    ListIsServed(u, steps, t, c);
    AnswersRespond(u, steps, t, c);
    TurnsFollowList(u, steps, t, c);
    assert |sorted| == |multiset(sorted)| == |multiset(ids)| == |ids|;
    assert u.conns[c].pending[..|ids|] == sorted;
  }
}
