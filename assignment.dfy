/**
  The distance measures of solver.py: the Manhattan `distance` between two cells, and
  `munkres_distance`, the cost of the cheapest assignment of boxes to destinations that the
  Hungarian algorithm of the `munkres` package computes. The algorithm itself is not
  modelled; its result is specified as a minimum over assignments.

  `munkres` pads a non-square matrix with zero entries, so when the two lists differ in
  length only min(|boxes|, |dests|) pairs carry cost: every item of the shorter list is
  matched to a distinct item of the longer one.
*/
module Assignment {
  import opened Space

  function Abs(n: int): nat {
    if n < 0 then -n else n
  }

  /** `distance`: the Manhattan distance, zero exactly for equal positions. */
  function Distance(p: Pos, q: Pos): (d: nat)
    ensures d == 0 <==> p == q
    ensures d >= Abs(p.x - q.x) && d >= Abs(p.y - q.y)
  {
    Abs(p.x - q.x) + Abs(p.y - q.y)
  }

  lemma DistanceSymmetric(p: Pos, q: Pos)
    ensures Distance(p, q) == Distance(q, p)
  {
  }

  /** The triangle inequality of the Manhattan distance. */
  lemma DistanceTriangle(p: Pos, q: Pos, r: Pos)
    ensures Distance(p, r) <= Distance(p, q) + Distance(q, r)
  {
  }

  function Remove(s: seq<Pos>, j: nat): (r: seq<Pos>)
    requires j < |s|
    ensures |r| == |s| - 1
  {
    s[..j] + s[j + 1..]
  }

  /** `a` sends each index below |a| to a distinct index below `n`. */
  predicate IsInjection(a: seq<nat>, n: nat) {
    && (forall i :: 0 <= i < |a| ==> a[i] < n)
    && (forall i, j :: 0 <= i < j < |a| ==> a[i] != a[j])
  }

  /** The summed distance of matching `xs[i]` with `ys[a[i]]` for every i. */
  function InjectionCost(xs: seq<Pos>, ys: seq<Pos>, a: seq<nat>): nat
    requires |a| == |xs| && forall i :: 0 <= i < |a| ==> a[i] < |ys|
    decreases |xs|
  {
    if xs == [] then 0 else Distance(xs[0], ys[a[0]]) + InjectionCost(xs[1..], ys, a[1..])
  }

  /** The least cost of matching every item of `xs` with a distinct item of `ys`. */
  function MinInjection(xs: seq<Pos>, ys: seq<Pos>): nat
    requires |xs| <= |ys|
    decreases |xs|, |ys| + 1
  {
    if xs == [] then 0 else BestFirst(xs, ys, |ys|)
  }

  /** The least cost among the matchings that pair `xs[0]` with one of `ys[..n]`. */
  function BestFirst(xs: seq<Pos>, ys: seq<Pos>, n: nat): nat
    requires 0 < |xs| <= |ys| && 0 < n <= |ys|
    decreases |xs|, n
  {
    var here := Distance(xs[0], ys[n - 1]) + MinInjection(xs[1..], Remove(ys, n - 1));
    if n == 1 then here
    else
      var rest := BestFirst(xs, ys, n - 1);
      if here < rest then here else rest
  }

  /** `munkres_distance(boxes, dests)`: the least cost of an assignment between the shorter and the longer list. */
  function MunkresDistance(boxes: seq<Pos>, dests: seq<Pos>): nat {
    if |boxes| <= |dests| then MinInjection(boxes, dests) else MinInjection(dests, boxes)
  }

  /** An assignment: each item of the shorter list goes to a distinct item of the longer one. */
  predicate IsAssignment(boxes: seq<Pos>, dests: seq<Pos>, a: seq<nat>) {
    if |boxes| <= |dests| then |a| == |boxes| && IsInjection(a, |dests|)
    else |a| == |dests| && IsInjection(a, |boxes|)
  }

  /** The sum of the matrix entries `distance(box, dest)` the assignment selects. */
  function AssignmentCost(boxes: seq<Pos>, dests: seq<Pos>, a: seq<nat>): nat
    requires IsAssignment(boxes, dests, a)
  {
    if |boxes| <= |dests| then InjectionCost(boxes, dests, a) else InjectionCost(dests, boxes, a)
  }

  // Re-indexing an injection when one target is removed, and back.

  function Lower(a: seq<nat>, j: nat): (r: seq<nat>)
    requires forall i :: 0 <= i < |a| ==> a[i] != j
    ensures |r| == |a| && forall i :: 0 <= i < |a| ==> r[i] == if a[i] < j then a[i] else a[i] - 1
  {
    if a == [] then [] else [if a[0] < j then a[0] else a[0] - 1] + Lower(a[1..], j)
  }

  function Raise(a: seq<nat>, j: nat): (r: seq<nat>)
    ensures |r| == |a| && forall i :: 0 <= i < |a| ==> r[i] == if a[i] < j then a[i] else a[i] + 1
  {
    if a == [] then [] else [if a[0] < j then a[0] else a[0] + 1] + Raise(a[1..], j)
  }

  /** Matching against `ys` through the raised indices costs what matching against `ys` minus `ys[j]` costs. */
  lemma {:induction false} CostRemove(xs: seq<Pos>, ys: seq<Pos>, j: nat, a: seq<nat>)
    requires j < |ys| && |a| == |xs| && forall i :: 0 <= i < |a| ==> a[i] < |ys| - 1
    ensures forall i :: 0 <= i < |a| ==> Raise(a, j)[i] < |ys|
    ensures InjectionCost(xs, ys, Raise(a, j)) == InjectionCost(xs, Remove(ys, j), a)
    decreases |xs|
  {
    var r := Raise(a, j);
    if xs != [] {
      assert Remove(ys, j)[a[0]] == ys[r[0]];
      assert Raise(a[1..], j) == r[1..];
      CostRemove(xs[1..], ys, j, a[1..]);
    }
  }

  lemma LowerRaise(a: seq<nat>, j: nat)
    requires forall i :: 0 <= i < |a| ==> a[i] != j
    ensures Raise(Lower(a, j), j) == a
  {
    var r := Raise(Lower(a, j), j);
    assert forall i :: 0 <= i < |a| ==> r[i] == a[i];
  }

  /** BestFirst is at most the cost of pairing `xs[0]` with any `ys[k]`, k < n. */
  lemma {:induction false} BestFirstBelow(xs: seq<Pos>, ys: seq<Pos>, n: nat, k: nat)
    requires 0 < |xs| <= |ys| && 0 < n <= |ys| && k < n
    ensures BestFirst(xs, ys, n) <= Distance(xs[0], ys[k]) + MinInjection(xs[1..], Remove(ys, k))
    decreases n
  {
    if k < n - 1 {
      BestFirstBelow(xs, ys, n - 1, k);
    }
  }

  /** BestFirst is the cost of pairing `xs[0]` with some `ys[k]`, k < n. */
  lemma {:induction false} BestFirstAttained(xs: seq<Pos>, ys: seq<Pos>, n: nat) returns (k: nat)
    requires 0 < |xs| <= |ys| && 0 < n <= |ys|
    ensures k < n && BestFirst(xs, ys, n) == Distance(xs[0], ys[k]) + MinInjection(xs[1..], Remove(ys, k))
    decreases n
  {
    if n == 1 {
      k := 0;
    } else {
      var here := Distance(xs[0], ys[n - 1]) + MinInjection(xs[1..], Remove(ys, n - 1));
      k := BestFirstAttained(xs, ys, n - 1);
      if here < BestFirst(xs, ys, n - 1) {
        k := n - 1;
      }
    }
  }

  /** No injection of `xs` into `ys` costs less than MinInjection. */
  lemma {:induction false} MinInjectionIsLeast(xs: seq<Pos>, ys: seq<Pos>, a: seq<nat>)
    requires |xs| <= |ys| && |a| == |xs| && IsInjection(a, |ys|)
    ensures MinInjection(xs, ys) <= InjectionCost(xs, ys, a)
    decreases |xs|
  {
    if xs != [] {
      var j := a[0];
      var tail := a[1..];
      assert forall i :: 0 <= i < |tail| ==> tail[i] != j by {
        forall i | 0 <= i < |tail|
          ensures tail[i] != j
        {
          assert tail[i] == a[i + 1];
        }
      }
      var low := Lower(tail, j);
      assert IsInjection(low, |ys| - 1) by {
        forall i | 0 <= i < |low|
          ensures low[i] < |ys| - 1
        {
          assert tail[i] == a[i + 1];
        }
        forall i, k | 0 <= i < k < |low|
          ensures low[i] != low[k]
        {
          assert tail[i] == a[i + 1] && tail[k] == a[k + 1];
        }
      }
      MinInjectionIsLeast(xs[1..], Remove(ys, j), low);
      CostRemove(xs[1..], ys, j, low);
      LowerRaise(tail, j);
      BestFirstBelow(xs, ys, |ys|, j);
    }
  }

  /** Some injection of `xs` into `ys` costs exactly MinInjection. */
  lemma {:induction false} MinInjectionAttained(xs: seq<Pos>, ys: seq<Pos>) returns (a: seq<nat>)
    requires |xs| <= |ys|
    ensures |a| == |xs| && IsInjection(a, |ys|) && InjectionCost(xs, ys, a) == MinInjection(xs, ys)
    decreases |xs|
  {
    if xs == [] {
      a := [];
    } else {
      var j := BestFirstAttained(xs, ys, |ys|);
      var rest := MinInjectionAttained(xs[1..], Remove(ys, j));
      CostRemove(xs[1..], ys, j, rest);
      var up := Raise(rest, j);
      a := [j] + up;
      assert a[1..] == up;
      forall i, k | 0 <= i < k < |a|
        ensures a[i] != a[k]
      {
        if i > 0 {
          assert rest[i - 1] != rest[k - 1];
        }
      }
    }
  }

  /**
    MunkresDistance is the optimal assignment cost: no assignment costs less, and some
    assignment costs exactly that much.
  */
  lemma MunkresDistanceIsOptimal(boxes: seq<Pos>, dests: seq<Pos>)
    ensures forall a :: IsAssignment(boxes, dests, a) ==> MunkresDistance(boxes, dests) <= AssignmentCost(boxes, dests, a)
    ensures exists a :: IsAssignment(boxes, dests, a) && AssignmentCost(boxes, dests, a) == MunkresDistance(boxes, dests)
  {
    forall a | IsAssignment(boxes, dests, a)
      ensures MunkresDistance(boxes, dests) <= AssignmentCost(boxes, dests, a)
    {
      if |boxes| <= |dests| {
        MinInjectionIsLeast(boxes, dests, a);
      } else {
        MinInjectionIsLeast(dests, boxes, a);
      }
    }
    var a;
    if |boxes| <= |dests| {
      a := MinInjectionAttained(boxes, dests);
    } else {
      a := MinInjectionAttained(dests, boxes);
    }
    assert IsAssignment(boxes, dests, a);
  }

  /** With nothing to assign the cost is 0. */
  lemma MunkresDistanceEmpty(dests: seq<Pos>)
    ensures MunkresDistance([], dests) == 0 && MunkresDistance(dests, []) == 0
  {
  }
}
