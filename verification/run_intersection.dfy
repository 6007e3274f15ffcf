/** `AndOperator`: the pairwise intersections it inserts, and why they never exceed its capacity. */
module RunIntersection {
  import opened Words
  import opened Runs
  import opened RunInsertion
  import opened RunAlgebra

  /** The non-empty intersections of the pairs before (i, j), row by row. */
  function Pieces(a: seq<BlockInterval>, b: seq<BlockInterval>, i: nat, j: nat): seq<BlockInterval>
    requires i <= |b| && j <= |a| && (i == |b| ==> j == 0)
    decreases i, j
  {
    if j > 0 then
      var p := AndOp(a[j - 1], b[i]);
      if p.size > 0 then Pieces(a, b, i, j - 1) + [p] else Pieces(a, b, i, j - 1)
    else if i > 0 then
      Pieces(a, b, i - 1, |a|)
    else
      []
  }

  function AndRuns(a: seq<BlockInterval>, b: seq<BlockInterval>): seq<BlockInterval> {
    AddAll([], Pieces(a, b, |b|, 0))
  }

  lemma HasAppend(s: seq<BlockInterval>, p: BlockInterval)
    ensures forall x :: Has(s + [p], x) <==> Has(s, x) || p.Contains(x)
  {
    HasLast(s + [p]);
    assert (s + [p])[..|s|] == s;
  }

  lemma {:induction false} PiecesCover(a: seq<BlockInterval>, b: seq<BlockInterval>, i: nat, j: nat)
    requires Canonical(a) && Canonical(b)
    requires i <= |b| && j <= |a| && (i == |b| ==> j == 0)
    ensures NoWrap(Pieces(a, b, i, j))
    ensures forall x :: Has(Pieces(a, b, i, j), x) <==>
                        || (Has(a, x) && Has(b[..i], x))
                        || (i < |b| && Has(a[..j], x) && b[i].Contains(x))
    decreases i, j
  {
    if j > 0 {
      var p := AndOp(a[j - 1], b[i]);
      PiecesCover(a, b, i, j - 1);
      assert a[j - 1].Sound() && b[i].Sound();
      AndOpIsIntersection(a[j - 1], b[i]);
      PrefixStep(a, j - 1);
      HasAppend(Pieces(a, b, i, j - 1), p);
      forall x
        ensures Has(Pieces(a, b, i, j), x) <==> Has(Pieces(a, b, i, j - 1), x) || p.Contains(x)
      {
      }
    } else if i > 0 {
      PiecesCover(a, b, i - 1, |a|);
      PrefixStep(b, i - 1);
      assert a[..|a|] == a;
    }
  }

  /** The pair (li, lj) overlaps and stands at least as high on the staircase as there are pieces. */
  ghost predicate Climbs(a: seq<BlockInterval>, b: seq<BlockInterval>, ps: seq<BlockInterval>, li: nat, lj: nat) {
    ps != [] ==> li < |b| && lj < |a| && 0 < AndOp(a[lj], b[li]).size && |ps| <= li + lj + 1
  }

  lemma ClimbsStep(a: seq<BlockInterval>, b: seq<BlockInterval>, ps: seq<BlockInterval>,
                   li: nat, lj: nat, i: nat, j: nat)
    requires Canonical(a) && Canonical(b) && i < |b| && j < |a| && Climbs(a, b, ps, li, lj)
    requires ps != [] ==> li < i || (li == i && lj < j)
    requires 0 < AndOp(a[j], b[i]).size
    ensures Climbs(a, b, ps + [AndOp(a[j], b[i])], i, j)
  {
    if ps != [] {
      Staircase(a, b, lj, li, j, i);
    }
  }

  /** Every piece climbs the staircase of overlapping pairs by at least one step. */
  lemma {:induction false} PiecesCount(a: seq<BlockInterval>, b: seq<BlockInterval>, i: nat, j: nat)
    returns (li: nat, lj: nat)
    requires Canonical(a) && Canonical(b)
    requires i <= |b| && j <= |a| && (i == |b| ==> j == 0)
    ensures Climbs(a, b, Pieces(a, b, i, j), li, lj)
    ensures Pieces(a, b, i, j) != [] ==> li < i || (li == i && lj < j)
    decreases i, j
  {
    li, lj := 0, 0;
    if j > 0 {
      li, lj := PiecesCount(a, b, i, j - 1);
      if AndOp(a[j - 1], b[i]).size > 0 {
        ClimbsStep(a, b, Pieces(a, b, i, j - 1), li, lj, i, j - 1);
        li, lj := i, j - 1;
      }
    } else if i > 0 {
      li, lj := PiecesCount(a, b, i - 1, |a|);
    }
  }

  lemma PiecesBound(a: seq<BlockInterval>, b: seq<BlockInterval>)
    requires Canonical(a) && Canonical(b)
    ensures a != [] && b != [] ==> |Pieces(a, b, |b|, 0)| <= |a| + |b| - 1
    ensures a == [] || b == [] ==> Pieces(a, b, |b|, 0) == []
  {
    var li, lj := PiecesCount(a, b, |b|, 0);
  }

  /** A run behind all others goes to the end, or nowhere if the array is full. */
  lemma {:induction false} AddBehind(s: seq<BlockInterval>, i: nat, p: BlockInterval)
    requires Canonical(s + [p]) && |s| <= MAX_RUNS && i <= |s|
    ensures AddFrom(s, i, p.start, p.size) == if |s| == MAX_RUNS then s else s + [p]
    decreases |s| - i
  {
    var r := s + [p];
    assert r[|s|].Sound() && p == r[|s|];
    if i < |s| {
      assert s[i].End() < r[|s|].start by {
        assert r[i] == s[i];
      }
      assert s[i].Sound() by {
        assert r[i].Sound();
      }
      AddBehind(s, i + 1, p);
    }
  }

  lemma CanonicalChoice(ps: seq<BlockInterval>, k: nat, n: nat)
    requires Canonical(ps) && k <= n < |ps|
    ensures Canonical(ps[..k]) && Canonical(ps[..k] + [ps[n]])
  {
    var r := ps[..k] + [ps[n]];
    assert forall i :: 0 <= i < |r| ==> r[i] == ps[if i < k then i else n];
  }

  lemma AddNext(ps: seq<BlockInterval>, k: nat, n: nat)
    requires Canonical(ps) && k <= n < |ps| && k <= MAX_RUNS
    ensures AddRuns(ps[..k], ps[n].start, ps[n].size) == if k == MAX_RUNS then ps[..k] else ps[..k] + [ps[n]]
  {
    CanonicalChoice(ps, k, n);
    assert ps[n].Sound();
    AddBehind(ps[..k], 0, ps[n]);
  }

  function FirstRuns(ps: seq<BlockInterval>): seq<BlockInterval> {
    if |ps| <= MAX_RUNS then ps else ps[..MAX_RUNS]
  }

  /** Inserting the runs of a canonical list one after the other rebuilds it, as far as there is room. */
  lemma {:induction false} AddCanonical(ps: seq<BlockInterval>)
    requires Canonical(ps)
    ensures AddAll([], ps) == FirstRuns(ps)
  {
    if ps != [] {
      var n := |ps| - 1;
      CanonicalChoice(ps, n, n);
      AddCanonical(ps[..n]);
      if n <= MAX_RUNS {
        AddNext(ps, n, n);
        assert ps[..n] + [ps[n]] == ps;
      } else {
        assert ps[..n][..MAX_RUNS] == ps[..MAX_RUNS];
        AddNext(ps, MAX_RUNS, n);
      }
    }
  }

  lemma AppendCanonical(s: seq<BlockInterval>, p: BlockInterval)
    requires Canonical(s) && p.Sound() && (s != [] ==> s[|s| - 1].End() < p.start)
    ensures Canonical(s + [p])
  {
    var r := s + [p];
    forall i, j | 0 <= i < j < |r|
      ensures r[i].End() < r[j].start
    {
      if j == |s| && i < |s| - 1 {
        assert s[i].End() < s[|s| - 1].start && s[|s| - 1].Sound();
      }
    }
  }

  /** The last of the pieces ends inside an earlier pair, and the pieces so far are in order. */
  ghost predicate Ordered(a: seq<BlockInterval>, b: seq<BlockInterval>, ps: seq<BlockInterval>, li: nat, lj: nat) {
    && Canonical(ps)
    && (ps != [] ==>
          && li < |b| && lj < |a|
          && ps[|ps| - 1].End() <= b[li].End() && ps[|ps| - 1].End() <= a[lj].End())
  }

  lemma OrderedStep(a: seq<BlockInterval>, b: seq<BlockInterval>, ps: seq<BlockInterval>,
                    li: nat, lj: nat, i: nat, j: nat)
    requires Canonical(a) && Canonical(b) && i < |b| && j < |a| && Ordered(a, b, ps, li, lj)
    requires ps != [] ==> li < i || (li == i && lj < j)
    requires 0 < AndOp(a[j], b[i]).size
    ensures Ordered(a, b, ps + [AndOp(a[j], b[i])], i, j)
  {
    assert a[j].Sound() && b[i].Sound();
    AndOpBounds(a[j], b[i]);
    AppendCanonical(ps, AndOp(a[j], b[i]));
  }

  /** Row by row, the pieces come in order and with gaps. */
  lemma {:induction false} PiecesCanonical(a: seq<BlockInterval>, b: seq<BlockInterval>, i: nat, j: nat)
    returns (li: nat, lj: nat)
    requires Canonical(a) && Canonical(b)
    requires i <= |b| && j <= |a| && (i == |b| ==> j == 0)
    ensures Ordered(a, b, Pieces(a, b, i, j), li, lj)
    ensures Pieces(a, b, i, j) != [] ==> li < i || (li == i && lj < j)
    decreases i, j
  {
    li, lj := 0, 0;
    if j > 0 {
      li, lj := PiecesCanonical(a, b, i, j - 1);
      if AndOp(a[j - 1], b[i]).size > 0 {
        OrderedStep(a, b, Pieces(a, b, i, j - 1), li, lj, i, j - 1);
        li, lj := i, j - 1;
      }
    } else if i > 0 {
      li, lj := PiecesCanonical(a, b, i - 1, |a|);
    }
  }

  lemma AndOpBounds(a: BlockInterval, b: BlockInterval)
    requires a.Sound() && b.Sound() && 0 < AndOp(a, b).size
    ensures var p := AndOp(a, b);
            p.Sound() && a.start <= p.start && b.start <= p.start && p.End() <= a.End() && p.End() <= b.End()
  {
  }

  /** The pieces are the runs of the intersection; `AndOperator` stores as many of them as an array can hold. */
  lemma AndRunsResult(a: seq<BlockInterval>, b: seq<BlockInterval>)
    requires Canonical(a) && Canonical(b)
    ensures var pieces := Pieces(a, b, |b|, 0);
            && Canonical(pieces)
            && (forall x :: Has(pieces, x) <==> Has(a, x) && Has(b, x))
            && AndRuns(a, b) == FirstRuns(pieces)
  {
    var li, lj := PiecesCanonical(a, b, |b|, 0);
    PiecesCover(a, b, |b|, 0);
    assert b[..|b|] == b;
    AddCanonical(Pieces(a, b, |b|, 0));
  }

  lemma PrefixIsLess(s: seq<BlockInterval>, k: nat)
    requires Canonical(s) && k < |s|
    ensures Canonical(s[..k]) && (forall x :: Has(s[..k], x) ==> Has(s, x))
    ensures Has(s, s[k].start) && !Has(s[..k], s[k].start)
  {
    assert s[k].Sound() && s[k].Contains(s[k].start);
    forall i | 0 <= i < k
      ensures !s[..k][i].Contains(s[k].start)
    {
      assert s[i].Sound() && s[i].End() < s[k].start;
    }
    forall x | Has(s[..k], x)
      ensures Has(s, x)
    {
      var i :| 0 <= i < k && s[..k][i].Contains(x);
      assert s[i].Contains(x);
    }
  }

  /**
   `AndOperator` is set intersection exactly if the intersection has at most 65535 runs, as it
   has for operands of together up to 65536 runs; beyond that it still holds common blocks only.
   */
  lemma AndIsIntersection(a: seq<BlockInterval>, b: seq<BlockInterval>)
    requires Canonical(a) && Canonical(b)
    ensures Canonical(AndRuns(a, b))
    ensures (forall x :: Has(AndRuns(a, b), x) <==> Has(a, x) && Has(b, x)) <==> |Pieces(a, b, |b|, 0)| <= MAX_RUNS
    ensures |a| + |b| <= MAX_RUNS + 1 ==> |Pieces(a, b, |b|, 0)| <= MAX_RUNS
    ensures forall x :: Has(AndRuns(a, b), x) ==> Has(a, x) && Has(b, x)
  {
    PiecesBound(a, b);
    AndRunsResult(a, b);
    if |Pieces(a, b, |b|, 0)| > MAX_RUNS {
      PrefixIsLess(Pieces(a, b, |b|, 0), MAX_RUNS);
    }
  }
}
