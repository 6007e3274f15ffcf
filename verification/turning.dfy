/** The loop of a thread over a stream of messages, whatever a single turn does. */
module Turning {
  datatype Outcome =
    | Idle        // nothing could be taken off the stream; the thread tries again
    | Dispatched  // one message was taken off
    | Broken      // the place in the stream is lost

  /** One turn from a state, when the stream announces a message of some size. */
  type Step<!S> = (S, int) -> (Outcome, S)

  datatype Progress<+S> = Progress(count: nat, idle: nat, broken: bool, state: S)

  function NextSize(sizes: seq<nat>): nat {
    if sizes == [] then 0 else sizes[0]
  }

  /** Progress that comes after some earlier turns. */
  function Later<S>(p: Progress<S>, count: nat, idle: nat): Progress<S> {
    p.(count := p.count + count, idle := p.idle + idle)
  }

  /** A number of turns on a stream of messages of these sizes. */
  function Turns<S>(step: Step<S>, s: S, sizes: seq<nat>, turns: nat): (p: Progress<S>)
    ensures p.count <= |sizes|
    ensures if p.broken then p.count + p.idle < turns else p.count + p.idle == turns
    decreases turns
  {
    if turns == 0 then
      Progress(0, 0, false, s)
    else
      var t := step(s, NextSize(sizes));
      if t.0.Broken? then
        Progress(0, 0, true, t.1)
      else if t.0.Idle? || sizes == [] then
        Later(Turns(step, t.1, sizes, turns - 1), 0, 1)
      else
        Later(Turns(step, t.1, sizes[1..], turns - 1), 1, 0)
  }

  /** Every turn in a row dispatches the next message. */
  predicate AllDispatch<S>(step: Step<S>, s: S, sizes: seq<nat>)
    decreases |sizes|
  {
    sizes == [] || (step(s, sizes[0]).0.Dispatched? && AllDispatch(step, step(s, sizes[0]).1, sizes[1..]))
  }

  /** The next turn goes on with the progress made so far. */
  lemma LaterStep<S>(step: Step<S>, all: Progress<S>, s: S, sizes: seq<nat>, left: nat, count: nat, idle: nat)
    requires 0 < left && all == Later(Turns(step, s, sizes, left), count, idle)
    ensures var t := step(s, NextSize(sizes));
            && (t.0.Broken? ==> all == Progress(count, idle, true, t.1))
            && (t.0.Idle? ==> all == Later(Turns(step, t.1, sizes, left - 1), count, idle + 1))
            && (t.0.Dispatched? && sizes != [] ==>
                  all == Later(Turns(step, t.1, sizes[1..], left - 1), count + 1, idle))
  {
  }

  /** The first n turns dispatch the first n messages exactly if every one of them dispatches. */
  lemma {:induction false} DispatchedIff<S>(step: Step<S>, s: S, sizes: seq<nat>, n: nat)
    requires n <= |sizes|
    ensures Turns(step, s, sizes, n).count == n <==> AllDispatch(step, s, sizes[..n])
    decreases n
  {
    if 0 < n {
      var t := step(s, sizes[0]);
      assert sizes[..n][1..] == sizes[1..][..n - 1];
      if t.0.Dispatched? {
        DispatchedIff(step, t.1, sizes[1..], n - 1);
      }
    }
  }

  /** What is left in a state goes down with every message; when nothing is left, turns are idle. */
  ghost predicate Runs<S(!new)>(step: Step<S>, left: S -> int) {
    && (forall s, n :: step(s, n).0.Dispatched? ==> left(step(s, n).1) == left(s) - n)
    && (forall s, n :: left(s) == 0 ==> step(s, n).0.Idle? && left(step(s, n).1) == 0)
  }

  function Total(sizes: seq<nat>): nat {
    if sizes == [] then 0 else sizes[0] + Total(sizes[1..])
  }

  /** Further turns on a stream that has been dispatched find nothing. */
  lemma {:induction false} FurtherTurns<S(!new)>(step: Step<S>, left: S -> int, s: S, sizes: seq<nat>, n: nat)
    requires Runs(step, left) && left(s) == Total(sizes) && AllDispatch(step, s, sizes) && |sizes| <= n
    ensures Turns(step, s, sizes, n).count == |sizes| && !Turns(step, s, sizes, n).broken
    decreases n
  {
    if sizes != [] {
      FurtherTurns(step, left, step(s, sizes[0]).1, sizes[1..], n - 1);
    } else if 0 < n {
      FurtherTurns(step, left, step(s, 0).1, sizes, n - 1);
    }
  }
}
