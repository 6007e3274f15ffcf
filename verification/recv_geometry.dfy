/**
 How a receive buffer and its socket stand, without the bytes: sizes, positions and the reads to
 come. Whether a request can be filled depends on nothing else.
 */
module RecvGeometry {
  import opened Words

  const DEFAULT_RECV_BUFFER_SIZE: nat := 131072
  const MAX_SOCKET_BUFFER: nat := 262144

  /**
   Unread bytes lie from curr to end in a buffer of the given size; avail bytes are under way and
   the reads will turn out as planned: an entry n > 0 delivers up to n bytes, 0 or none is an error.
   */
  datatype Link = Link(size: nat, curr: nat, end: nat, plan: seq<nat>, avail: nat) {
    predicate Sound() {
      curr <= end <= size <= MAX_SOCKET_BUFFER && DEFAULT_RECV_BUFFER_SIZE <= size
    }

    function Unread(): int {
      end - curr
    }

    function Total(): int {
      end - curr + avail
    }

    /** The next n bytes will come, one read after the other, without an error. */
    predicate KeepsDelivering(n: int) {
      n <= avail && n <= |plan| && forall i :: 0 <= i < n ==> 0 < plan[i]
    }

    /** The buffer size once the buffer has been enlarged for a request. */
    function Enlarged(request: nat): nat {
      if size < request <= MAX_SOCKET_BUFFER then request else size
    }

    /** The requests that `fill_buffer` has room for. */
    predicate CanHold(request: nat) {
      request <= Unread() || (if curr < end then request <= MAX_SOCKET_BUFFER else request <= Enlarged(request) - end)
    }
  }

  /** What one read of at most `size` bytes delivers. */
  function Delivered(size: nat, plan: seq<nat>, avail: nat): (n: nat)
    ensures n <= size && n <= avail
  {
    if size == 0 || plan == [] then 0 else Min(plan[0], Min(size, avail))
  }

  /** The plan after one read; a read of no bytes fails before it reaches the peer. */
  function PlanAfter(size: nat, plan: seq<nat>): seq<nat> {
    if size == 0 || plan == [] then plan else plan[1..]
  }

  /** How many bytes reads until `missing` have come deliver into `free` bytes, and the plan then. */
  function Drain(missing: int, free: nat, plan: seq<nat>, avail: nat): (r: (nat, seq<nat>))
    ensures r.0 <= free && r.0 <= avail
    decreases |plan|
  {
    if missing <= 0 then
      (0, plan)
    else
      var n := Delivered(free, plan, avail);
      if n == 0 then
        (0, PlanAfter(free, plan))
      else
        var later := Drain(missing - n, free - n, plan[1..], avail - n);
        (n + later.0, later.1)
  }

  /** The link after one read of at most `free` bytes. */
  function AfterRead(p: Link, free: nat): Link {
    var n := Delivered(free, p.plan, p.avail);
    p.(end := p.end + n, plan := PlanAfter(free, p.plan), avail := p.avail - n)
  }

  /**
   Resets an empty buffer, or compacts one without enough space behind the unread bytes; and how
   many bytes may be read then. For an empty buffer that is the space measured before the reset.
   */
  function Settled(l: Link, request: nat): (Link, nat)
    requires l.curr <= l.end <= l.size
  {
    if l.Unread() == 0 then
      (l.(curr := 0, end := 0), l.size - l.end)
    else if l.size - l.end < request then
      (l.(curr := 0, end := l.Unread()), l.size - l.Unread())
    else
      (l, l.size - l.end)
  }

  /** The link before the first read, and how many bytes may be read in all. */
  function Prepared(l: Link, request: nat): (Link, nat)
    requires l.Sound()
  {
    Settled(l.(size := l.Enlarged(request)), request)
  }

  /** There is room for what can be held. */
  lemma PreparedRoom(l: Link, request: nat)
    requires l.Sound() && l.Unread() < request
    ensures l.CanHold(request) <==> request <= l.Unread() + Prepared(l, request).1
  {
  }

  /** `fill_buffer`. */
  function Filled(l: Link, request: nat): (r: Link)
    requires l.Sound()
    ensures r.Sound() && r.Total() == l.Total() && l.Unread() <= r.Unread()
  {
    if request <= l.Unread() then
      l
    else
      var (p, space) := Prepared(l, request);
      Drained(p, request - l.Unread(), space)
  }

  /** The link p after so many bytes were asked for and `space` bytes might be read. */
  function Drained(p: Link, missing: int, space: nat): Link {
    var got := Drain(missing, space, p.plan, p.avail);
    p.(end := p.end + got.0, plan := got.1, avail := p.avail - got.0)
  }

  lemma DrainedStep(p: Link, missing: int, free: nat)
    requires 0 < missing
    ensures var n := Delivered(free, p.plan, p.avail);
            Drained(p, missing, free) ==
              if n == 0 then AfterRead(p, free) else Drained(AfterRead(p, free), missing - n, free - n)
  {
  }

  lemma {:induction false} DrainEnough(missing: int, free: nat, plan: seq<nat>, avail: nat)
    ensures missing <= Drain(missing, free, plan, avail).0 ==> missing <= free
    ensures missing <= free && Link(0, 0, 0, plan, avail).KeepsDelivering(missing) ==>
              missing <= Drain(missing, free, plan, avail).0
    decreases |plan|
  {
    var n := Delivered(free, plan, avail);
    if 0 < missing && n != 0 {
      DrainEnough(missing - n, free - n, plan[1..], avail - n);
    }
  }

  /**
   A request is filled only if it can be held, and is filled if it can be held and the bytes keep
   coming. An empty buffer holds no more than the space behind its old end.
   */
  lemma FilledIff(l: Link, request: nat)
    requires l.Sound()
    ensures request <= Filled(l, request).Unread() ==> l.CanHold(request)
    ensures l.CanHold(request) && l.KeepsDelivering(request - l.Unread()) ==> request <= Filled(l, request).Unread()
  {
    if l.Unread() < request {
      DrainEnough(request - l.Unread(), Prepared(l, request).1, l.plan, l.avail);
    }
  }

  /** Everything under way will come, one read after the other. */
  predicate Delivers(l: Link) {
    l.KeepsDelivering(l.avail)
  }

  lemma {:induction false} DrainDelivers(missing: int, free: nat, plan: seq<nat>, avail: nat)
    requires Delivers(Link(0, 0, 0, plan, avail))
    ensures var r := Drain(missing, free, plan, avail); Delivers(Link(0, 0, 0, r.1, avail - r.0))
    decreases |plan|
  {
    var n := Delivered(free, plan, avail);
    if 0 < missing && n != 0 {
      DrainDelivers(missing - n, free - n, plan[1..], avail - n);
    }
  }

  /** While the peer delivers, a request for bytes that exist is filled exactly if it can be held. */
  lemma FilledWhileDelivering(l: Link, request: nat)
    requires l.Sound() && Delivers(l)
    ensures Delivers(Filled(l, request))
    ensures request <= l.Total() ==> (request <= Filled(l, request).Unread() <==> l.CanHold(request))
  {
    FilledIff(l, request);
    if l.Unread() < request {
      DrainDelivers(request - l.Unread(), Prepared(l, request).1, l.plan, l.avail);
    }
  }

  /** The rest of the stream fits behind the unread bytes. */
  predicate RestFits(l: Link) {
    l.end + l.avail <= l.size
  }

  function Consumed(l: Link, n: nat): Link
    requires n <= l.Unread()
  {
    l.(curr := l.curr + n)
  }

  lemma RestFitsFilled(l: Link, request: nat)
    requires l.Sound() && RestFits(l) && request <= l.Total()
    ensures l.CanHold(request) && RestFits(Filled(l, request))
  {
  }

  /** Then every request for bytes that exist is filled, and the next one will be. */
  lemma RoomForRequest(l: Link, request: nat)
    requires l.Sound() && Delivers(l) && RestFits(l) && request <= l.Total()
    ensures request <= Filled(l, request).Unread()
    ensures var next := Consumed(Filled(l, request), request);
            next.Sound() && Delivers(next) && RestFits(next) && next.Total() == l.Total() - request
  {
    RestFitsFilled(l, request);
    FilledWhileDelivering(l, request);
  }

  // ---------------------------------------------------------------- positions

  /**
   Where the bytes stand after a request that needs a read. Unread bytes stay where they are if the
   whole request fits behind their end, and else move to the front; so do those read into an
   empty buffer, which may only be as many as fit behind its old end.
   */
  lemma FilledPositions(l: Link, request: nat)
    requires l.Sound() && l.Unread() < request
    ensures var r := Filled(l, request);
            var big := if l.size < request <= 262144 then request else l.size;
            && r.size == big
            && r.curr == (if l.curr < l.end && request <= big - l.end then l.curr else 0)
            && r.end <= (if l.curr < l.end then big else big - l.end)
            && r.end - r.curr - (l.end - l.curr) == l.avail - r.avail
  {
  }

  /** A request that the unread bytes meet changes nothing. */
  lemma FilledAlready(l: Link, request: nat)
    requires l.Sound() && request <= l.end - l.curr
    ensures Filled(l, request) == l
  {
  }

  /** What the first reads of a plan deliver if nothing limits them. */
  function PlanSum(plan: seq<nat>, k: nat): nat
    requires k <= |plan|
  {
    if k == 0 then 0 else plan[0] + PlanSum(plan[1..], k - 1)
  }

  /** That many reads are needed for so many bytes. */
  ghost predicate Needs(plan: seq<nat>, missing: nat, k: nat) {
    0 < k <= |plan| && PlanSum(plan, k - 1) < missing <= PlanSum(plan, k)
  }

  /** While the peer delivers there are as many reads as needed, and they deliver all they can. */
  lemma {:induction false} DrainReads(missing: nat, free: nat, plan: seq<nat>, avail: nat, k: nat)
    requires Needs(plan, missing, k) && missing <= free && Delivers(Link(0, 0, 0, plan, avail)) && missing <= avail
    ensures Drain(missing, free, plan, avail) == (Min(PlanSum(plan, k), Min(free, avail)), plan[k..])
    decreases k
  {
    var n := Delivered(free, plan, avail);
    var rest := plan[1..];
    assert plan[k..] == rest[k - 1..];
    if k == 1 {
      assert PlanSum(plan, 1) == plan[0] + PlanSum(rest, 0);
    } else {
      assert PlanSum(plan, k - 1) == plan[0] + PlanSum(rest, k - 2);
      DrainReads(missing - n, free - n, rest, avail - n, k - 1);
    }
  }

  /** k reads deliver, each of them needed, and bring all they can. */
  ghost predicate FirstReads(missing: int, free: nat, plan: seq<nat>, avail: nat, k: nat, got: nat) {
    && k <= |plan| && (forall j :: 0 <= j < k ==> 0 < plan[j])
    && got == Min(PlanSum(plan, k), Min(free, avail))
    && (0 < k ==> Min(PlanSum(plan, k - 1), Min(free, avail)) < missing)
  }

  /** After k reads the request is met, or the next read fails and is the last. */
  ghost predicate LastRead(missing: int, free: nat, plan: seq<nat>, avail: nat, k: nat, got: nat, rest: seq<nat>)
    requires k <= |plan|
  {
    if missing <= got || got == free || k == |plan| then
      rest == plan[k..]
    else
      rest == plan[k + 1..] && (plan[k] == 0 || got == avail)
  }

  lemma OneReadBefore(missing: int, free: nat, plan: seq<nat>, avail: nat, j: nat, got: nat)
    requires 0 < missing && 0 < Delivered(free, plan, avail)
    requires var n := Delivered(free, plan, avail); FirstReads(missing - n, free - n, plan[1..], avail - n, j, got)
    ensures FirstReads(missing, free, plan, avail, j + 1, Delivered(free, plan, avail) + got)
  {
    var rest := plan[1..];
    assert PlanSum(plan, j + 1) == plan[0] + PlanSum(rest, j);
    assert 0 < j ==> PlanSum(plan, j) == plan[0] + PlanSum(rest, j - 1);
    forall i | 0 <= i < j + 1
      ensures 0 < plan[i]
    {
      assert 0 < i ==> plan[i] == rest[i - 1];
    }
  }

  lemma LastReadLater(missing: int, free: nat, plan: seq<nat>, avail: nat, n: nat, j: nat, got: nat, rest: seq<nat>)
    requires plan != [] && n <= free && n <= avail && j < |plan|
    requires LastRead(missing - n, free - n, plan[1..], avail - n, j, got, rest)
    ensures LastRead(missing, free, plan, avail, j + 1, n + got, rest)
  {
    assert plan[j + 1..] == plan[1..][j..];
    if j + 1 < |plan| {
      assert plan[j + 2..] == plan[1..][j + 1..];
    }
  }

  /**
   Whatever the plan: some k reads deliver, each of them needed, and bring all they can. Then the
   request is met, or the next read fails and is the last: nothing is free, left or planned, or the
   plan says so.
   */
  lemma {:induction false} DrainIs(missing: int, free: nat, plan: seq<nat>, avail: nat) returns (k: nat)
    ensures FirstReads(missing, free, plan, avail, k, Drain(missing, free, plan, avail).0)
    ensures var r := Drain(missing, free, plan, avail); LastRead(missing, free, plan, avail, k, r.0, r.1)
    decreases |plan|
  {
    var n := Delivered(free, plan, avail);
    k := 0;
    if 0 < missing && 0 < n {
      var j := DrainIs(missing - n, free - n, plan[1..], avail - n);
      var later := Drain(missing - n, free - n, plan[1..], avail - n);
      OneReadBefore(missing, free, plan, avail, j, later.0);
      LastReadLater(missing, free, plan, avail, n, j, later.0, later.1);
      k := j + 1;
    }
  }

  lemma {:induction false} ReadsSuffice(plan: seq<nat>, missing: nat) returns (k: nat)
    requires 0 < missing <= |plan| && forall i :: 0 <= i < missing ==> 0 < plan[i]
    ensures Needs(plan, missing, k)
    decreases missing
  {
    if missing <= plan[0] {
      k := 1;
      assert PlanSum(plan, 1) == plan[0] + PlanSum(plan[1..], 0);
    } else {
      k := ReadsSuffice(plan[1..], missing - plan[0]);
      k := k + 1;
    }
  }

  /** Where the unread bytes begin after a request. */
  function StartAfter(l: Link, request: nat): nat {
    var big := if l.size < request <= MAX_SOCKET_BUFFER then request else l.size;
    if request <= l.end - l.curr || (l.curr < l.end && request <= big - l.end) then l.curr else 0
  }

  /** How many bytes are unread after a request that is filled while the peer delivers. */
  ghost predicate UnreadAfter(l: Link, request: nat, u: nat)
    requires l.Sound()
  {
    var had := l.end - l.curr;
    var big := if l.size < request <= MAX_SOCKET_BUFFER then request else l.size;
    var space := if had == 0 || request <= big - l.end then big - l.end else big - had;
    if request <= had then
      u == had
    else
      exists k :: Needs(l.plan, request - had, k) && u == had + Min(PlanSum(l.plan, k), Min(space, l.avail))
  }

  /** What k reads, as many as needed, bring. */
  lemma FilledBrings(l: Link, request: nat, k: nat)
    requires l.Sound() && Delivers(l) && l.Unread() < request <= l.Total() && l.CanHold(request)
    requires Needs(l.plan, request - l.Unread(), k)
    ensures var got := Min(PlanSum(l.plan, k), Min(Prepared(l, request).1, l.avail));
            request <= l.Unread() + got && Filled(l, request).Unread() == l.Unread() + got
  {
    PreparedRoom(l, request);
    DrainReads(request - l.Unread(), Prepared(l, request).1, l.plan, l.avail, k);
  }

  /** A filled request leaves exactly those bytes unread, exactly there. */
  lemma FilledStand(l: Link, request: nat)
    requires l.Sound() && Delivers(l) && request <= l.Total() && l.CanHold(request)
    ensures exists u :: UnreadAfter(l, request, u)
    ensures forall u :: UnreadAfter(l, request, u) ==> Filled(l, request).Unread() == u && request <= u
    ensures Filled(l, request).curr == StartAfter(l, request)
  {
    var had := l.end - l.curr;
    if had < request {
      var space := Prepared(l, request).1;
      var k := ReadsSuffice(l.plan, request - had);
      assert UnreadAfter(l, request, had + Min(PlanSum(l.plan, k), Min(space, l.avail)));
      forall u | UnreadAfter(l, request, u)
        ensures Filled(l, request).Unread() == u && request <= u
      {
        var j :| Needs(l.plan, request - had, j) && u == had + Min(PlanSum(l.plan, j), Min(space, l.avail));
        FilledBrings(l, request, j);
      }
    } else {
      assert UnreadAfter(l, request, had);
    }
  }
}
