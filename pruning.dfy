/**
  The pruning test of solver.py, `is_ok`, applied to a box just pushed: the 2x2 corner quads
  around the box, and the wall-run count of `expand_wall` along the wall beyond it.
*/
module Pruning {
  import opened Space

  // ---------------------------------------------------------------------------
  // is_ok, part one: the 2x2 corner quads around the pushed box.
  // ---------------------------------------------------------------------------

  /** The four diagonal offsets the quads are built from, in their source order. */
  const Diagonals: seq<(int, int)> := [(-1, -1), (1, 1), (-1, 1), (1, -1)]

  /** The quad of box position `b` and diagonal `d`: the box, its two side neighbours and the corner. */
  function Quad(b: Pos, d: (int, int)): seq<Pos> {
    [b, Pos(b.x + d.0, b.y), Pos(b.x + d.0, b.y + d.1), Pos(b.x, b.y + d.1)]
  }

  predicate BlockOrBox(c: Cell) {
    c == Wall || c == Box || c == BoxAtDest
  }

  predicate BlockOrBoxAtDest(c: Cell) {
    c == Wall || c == BoxAtDest
  }

  /**
    A quad is stuck when all four cells are walls or boxes but not all are walls or boxes on
    destinations: none of those boxes can move again and one of them is off target.
  */
  predicate QuadStuck(g: Grid, q: seq<Pos>)
    requires forall i :: 0 <= i < |q| ==> InGrid(g, q[i])
  {
    && (forall i :: 0 <= i < |q| ==> BlockOrBox(At(g, q[i])))
    && !(forall i :: 0 <= i < |q| ==> BlockOrBoxAtDest(At(g, q[i])))
  }

  /** The quads of a box that is not on a static block lie inside a bordered level. */
  lemma QuadsInGrid(g: Grid, b: Pos, d: (int, int))
    requires WellFormed(g) && InGrid(g, b) && !IsStaticBlock(At(g, b))
    requires -1 <= d.0 <= 1 && -1 <= d.1 <= 1
    ensures forall i :: 0 <= i < 4 ==> InGrid(g, Quad(b, d)[i])
  {
    NonStaticInterior(g, b);
    assert forall i :: 0 <= i < 4 ==> Near(b, Quad(b, d)[i]);
  }

  /** The quad loop of is_ok: true when some diagonal's quad is stuck. */
  method AnyQuadStuck(g: Grid, b: Pos) returns (stuck: bool)
    requires WellFormed(g) && InGrid(g, b) && !IsStaticBlock(At(g, b))
    ensures stuck <==> exists i :: 0 <= i < 4 && (QuadsInGrid(g, b, Diagonals[i]); QuadStuck(g, Quad(b, Diagonals[i])))
  {
    for i := 0 to 4
      invariant forall k :: 0 <= k < i ==> (QuadsInGrid(g, b, Diagonals[k]); !QuadStuck(g, Quad(b, Diagonals[k])))
    {
      QuadsInGrid(g, b, Diagonals[i]);
      var q := Quad(b, Diagonals[i]);
      var allBlockOrBox := true;
      var allBlockOrBoxAtDest := true;
      for k := 0 to 4
        invariant allBlockOrBox <==> forall j :: 0 <= j < k ==> BlockOrBox(At(g, q[j]))
        invariant allBlockOrBoxAtDest <==> forall j :: 0 <= j < k ==> BlockOrBoxAtDest(At(g, q[j]))
      {
        var s := g[q[k].y][q[k].x];
        allBlockOrBox := allBlockOrBox && (s == Wall || s == Box || s == BoxAtDest);
        allBlockOrBoxAtDest := allBlockOrBoxAtDest && (s == Wall || s == BoxAtDest);
      }
      if allBlockOrBox && !allBlockOrBoxAtDest {
        return true;
      }
    }
    return false;
  }

  // ---------------------------------------------------------------------------
  // is_ok, part two: expand_wall's walk along a wall.
  // ---------------------------------------------------------------------------

  /**
    The "wall line" is the row (vertical push) or column (horizontal push) just beyond the
    pushed box; the "box line" is the box's own row or column. The walk runs along them,
    towards left/down or towards right/up.
  */
  function WallStart(b: Pos, dx: int, dy: int, leftOrDown: bool): (p: Pos)
    requires IsMove(dx, dy)
    ensures dx == 0 ==> p.y == b.y + dy && p.x == (if leftOrDown then b.x else b.x + 1)
    ensures dx != 0 ==> p.x == b.x + dx && p.y == (if leftOrDown then b.y else b.y + 1)
  {
    var x := if dx == 0 && !leftOrDown then b.x + 1 else b.x + dx;
    var y := if dy == 0 && !leftOrDown then b.y + 1 else b.y + dy;
    Pos(x, y)
  }

  /** (dx, dy) is the offset of one of the four ACTIONS. */
  predicate IsMove(dx: int, dy: int) {
    (dx == 0 && (dy == 1 || dy == -1)) || (dy == 0 && (dx == 1 || dx == -1))
  }

  /** The offsets of ACTIONS are moves. */
  lemma ActionIsMove(a: Action)
    ensures IsMove(a.Dx(), a.Dy())
  {
  }

  /** The box-line cell next to wall-line position `p`. */
  function BoxLine(p: Pos, dx: int, dy: int): Pos {
    Pos(p.x - dx, p.y - dy)
  }

  /**
    The box's own cell is where the left/down walk begins on the box line, and the
    right/up walk begins one cell past it: each side scans the box's cell at most once
    between them.
  */
  lemma WallStartsSplitTheBox(b: Pos, dx: int, dy: int)
    requires IsMove(dx, dy)
    ensures BoxLine(WallStart(b, dx, dy, true), dx, dy) == b
    ensures dx == 0 ==> BoxLine(WallStart(b, dx, dy, false), dx, dy) == Pos(b.x + 1, b.y)
    ensures dx != 0 ==> BoxLine(WallStart(b, dx, dy, false), dx, dy) == Pos(b.x, b.y + 1)
  {
  }

  /** The position after `p` on the walk. */
  function WallNext(p: Pos, dx: int, dy: int, leftOrDown: bool): Pos {
    var delta := if leftOrDown then -1 else 1;
    if dx == 0 then Pos(p.x + delta, p.y) else Pos(p.x, p.y + delta)
  }

  /** The walk has run off the grid on its moving coordinate (the loop's `break` at an edge). */
  predicate PastEdge(g: Grid, p: Pos, dx: int, dy: int, leftOrDown: bool)
    requires Rectangular(g)
  {
    if dx == 0 then (if leftOrDown then p.x < 0 else p.x >= |g[0]|)
    else (if leftOrDown then p.y < 0 else p.y >= |g|)
  }

  /** Where the walk may be: on the wall line, on its side of the box, and on the grid's other coordinate. */
  predicate OnWalk(g: Grid, b: Pos, dx: int, dy: int, leftOrDown: bool, p: Pos)
    requires Rectangular(g)
  {
    && Interior(g, b) && IsMove(dx, dy)
    && (dx == 0 ==> p.y == b.y + dy && (if leftOrDown then p.x <= b.x else p.x > b.x))
    && (dx != 0 ==> p.x == b.x + dx && (if leftOrDown then p.y <= b.y else p.y > b.y))
  }

  lemma OnWalkInGrid(g: Grid, b: Pos, dx: int, dy: int, leftOrDown: bool, p: Pos)
    requires Rectangular(g) && OnWalk(g, b, dx, dy, leftOrDown, p) && !PastEdge(g, p, dx, dy, leftOrDown)
    ensures InGrid(g, p) && InGrid(g, BoxLine(p, dx, dy))
  {
    assert |g[p.y]| == |g[0]|;
    assert |g[BoxLine(p, dx, dy).y]| == |g[0]|;
  }

  function Ind(c: bool): nat {
    if c then 1 else 0
  }

  /** The distance left for the walk to its grid edge. */
  function WalkMeasure(g: Grid, p: Pos, dx: int, dy: int, leftOrDown: bool): int
    requires Rectangular(g)
  {
    if dx == 0 then (if leftOrDown then p.x + 1 else |g[0]| - p.x)
    else (if leftOrDown then p.y + 1 else |g| - p.y)
  }

  /**
    expand_wall from position `p` of the walk: (hasWall, numOfDest, numOfBox). The walk
    stops without a wall at the grid edge or at a wall-line cell that is not S_WALL; it stops
    with a wall when the box-line cell beside a wall-line wall is S_WALL; otherwise it
    counts the box-line cell (S_DEST as a destination, S_BOX as a box, S_BOX_AT_DEST as both)
    and goes on.
  */
  function WallRun(g: Grid, b: Pos, dx: int, dy: int, leftOrDown: bool, p: Pos): (r: (bool, nat, nat))
    requires Rectangular(g) && OnWalk(g, b, dx, dy, leftOrDown, p)
    decreases WalkMeasure(g, p, dx, dy, leftOrDown)
  {
    if PastEdge(g, p, dx, dy, leftOrDown) then (false, 0, 0)
    else
      OnWalkInGrid(g, b, dx, dy, leftOrDown, p);
      if At(g, p) != Wall then (false, 0, 0)
      else
        var s := At(g, BoxLine(p, dx, dy));
        if s == Wall then (true, 0, 0)
        else
          var r := WallRun(g, b, dx, dy, leftOrDown, WallNext(p, dx, dy, leftOrDown));
          (r.0, r.1 + Ind(s == Dest || s == BoxAtDest), r.2 + Ind(s == Box || s == BoxAtDest))
  }

  /** The k-th position of the walk from `p`. */
  function WalkAt(p: Pos, dx: int, dy: int, leftOrDown: bool, k: nat): Pos
    decreases k
  {
    if k == 0 then p else WalkAt(WallNext(p, dx, dy, leftOrDown), dx, dy, leftOrDown, k - 1)
  }

  /** The walk passes position `q`: a wall-line wall beside a box-line cell that is not a wall. */
  predicate Passes(g: Grid, dx: int, dy: int, leftOrDown: bool, q: Pos)
    requires Rectangular(g)
  {
    !PastEdge(g, q, dx, dy, leftOrDown) && InGrid(g, q) && InGrid(g, BoxLine(q, dx, dy))
    && At(g, q) == Wall && At(g, BoxLine(q, dx, dy)) != Wall
  }

  /** The walk ends on a wall at position `q`: S_WALL on the wall line and on the box line. */
  predicate Bounds(g: Grid, dx: int, dy: int, leftOrDown: bool, q: Pos)
    requires Rectangular(g)
  {
    !PastEdge(g, q, dx, dy, leftOrDown) && InGrid(g, q) && InGrid(g, BoxLine(q, dx, dy))
    && At(g, q) == Wall && At(g, BoxLine(q, dx, dy)) == Wall
  }

  lemma OnWalkNext(g: Grid, b: Pos, dx: int, dy: int, leftOrDown: bool, p: Pos)
    requires Rectangular(g) && OnWalk(g, b, dx, dy, leftOrDown, p) && !PastEdge(g, p, dx, dy, leftOrDown)
    ensures OnWalk(g, b, dx, dy, leftOrDown, WallNext(p, dx, dy, leftOrDown))
    ensures WalkMeasure(g, WallNext(p, dx, dy, leftOrDown), dx, dy, leftOrDown) < WalkMeasure(g, p, dx, dy, leftOrDown)
  {
  }

  /** The walk from `p` passes k positions and then meets a wall on both lines. */
  predicate WallAfter(g: Grid, dx: int, dy: int, leftOrDown: bool, p: Pos, k: nat)
    requires Rectangular(g)
  {
    (forall j: nat :: j < k ==> Passes(g, dx, dy, leftOrDown, WalkAt(p, dx, dy, leftOrDown, j)))
    && Bounds(g, dx, dy, leftOrDown, WalkAt(p, dx, dy, leftOrDown, k))
  }

  lemma WallAfterShift(g: Grid, dx: int, dy: int, leftOrDown: bool, p: Pos, k: nat)
    requires Rectangular(g)
    ensures WallAfter(g, dx, dy, leftOrDown, p, 0) <==> Bounds(g, dx, dy, leftOrDown, p)
    ensures WallAfter(g, dx, dy, leftOrDown, p, k + 1) <==>
      Passes(g, dx, dy, leftOrDown, p) && WallAfter(g, dx, dy, leftOrDown, WallNext(p, dx, dy, leftOrDown), k)
  {
    var next := WallNext(p, dx, dy, leftOrDown);
    assert WalkAt(p, dx, dy, leftOrDown, 0) == p;
    assert forall j: nat :: WalkAt(p, dx, dy, leftOrDown, j + 1) == WalkAt(next, dx, dy, leftOrDown, j);
    if Passes(g, dx, dy, leftOrDown, p) && WallAfter(g, dx, dy, leftOrDown, next, k) {
      forall j: nat | j < k + 1
        ensures Passes(g, dx, dy, leftOrDown, WalkAt(p, dx, dy, leftOrDown, j))
      {
        if j > 0 {
          assert WalkAt(p, dx, dy, leftOrDown, j) == WalkAt(next, dx, dy, leftOrDown, j - 1);
        }
      }
    }
    if WallAfter(g, dx, dy, leftOrDown, p, k + 1) {
      forall j: nat | j < k
        ensures Passes(g, dx, dy, leftOrDown, WalkAt(next, dx, dy, leftOrDown, j))
      {
        assert WalkAt(p, dx, dy, leftOrDown, j + 1) == WalkAt(next, dx, dy, leftOrDown, j);
      }
    }
  }

  /**
    `hasWall` is reported exactly when, after some number k of wall-line walls with a
    non-wall box-line cell beside them, the walk meets a wall on both lines.
  */
  lemma {:induction false} WallRunFindsWall(g: Grid, b: Pos, dx: int, dy: int, leftOrDown: bool, p: Pos)
    requires Rectangular(g) && OnWalk(g, b, dx, dy, leftOrDown, p)
    ensures WallRun(g, b, dx, dy, leftOrDown, p).0 <==> exists k: nat :: WallAfter(g, dx, dy, leftOrDown, p, k)
    decreases WalkMeasure(g, p, dx, dy, leftOrDown)
  {
    var next := WallNext(p, dx, dy, leftOrDown);
    WallAfterShift(g, dx, dy, leftOrDown, p, 0);
    if Bounds(g, dx, dy, leftOrDown, p) {
      OnWalkInGrid(g, b, dx, dy, leftOrDown, p);
      assert WallAfter(g, dx, dy, leftOrDown, p, 0);
    } else if Passes(g, dx, dy, leftOrDown, p) {
      OnWalkInGrid(g, b, dx, dy, leftOrDown, p);
      OnWalkNext(g, b, dx, dy, leftOrDown, p);
      WallRunFindsWall(g, b, dx, dy, leftOrDown, next);
      assert WallRun(g, b, dx, dy, leftOrDown, p).0 == WallRun(g, b, dx, dy, leftOrDown, next).0;
      if WallRun(g, b, dx, dy, leftOrDown, next).0 {
        var k: nat :| WallAfter(g, dx, dy, leftOrDown, next, k);
        WallAfterShift(g, dx, dy, leftOrDown, p, k);
      } else {
        forall k: nat
          ensures !WallAfter(g, dx, dy, leftOrDown, p, k)
        {
          if k > 0 {
            WallAfterShift(g, dx, dy, leftOrDown, p, k - 1);
          }
        }
      }
    } else {
      if !PastEdge(g, p, dx, dy, leftOrDown) {
        OnWalkInGrid(g, b, dx, dy, leftOrDown, p);
      }
      assert !WallRun(g, b, dx, dy, leftOrDown, p).0;
      forall k: nat
        ensures !WallAfter(g, dx, dy, leftOrDown, p, k)
      {
        if k > 0 {
          WallAfterShift(g, dx, dy, leftOrDown, p, k - 1);
        }
      }
    }
  }

  /**
    Where no plain S_BOX stands on the box line of the walk, the boxes it counts are all on
    destinations, so it never counts more boxes than destinations.
  */
  lemma {:induction false} WallRunBoxesOnTargets(g: Grid, b: Pos, dx: int, dy: int, leftOrDown: bool, p: Pos)
    requires Rectangular(g) && OnWalk(g, b, dx, dy, leftOrDown, p)
    requires forall k: nat :: Passes(g, dx, dy, leftOrDown, WalkAt(p, dx, dy, leftOrDown, k)) ==>
      At(g, BoxLine(WalkAt(p, dx, dy, leftOrDown, k), dx, dy)) != Box
    ensures WallRun(g, b, dx, dy, leftOrDown, p).2 <= WallRun(g, b, dx, dy, leftOrDown, p).1
    decreases WalkMeasure(g, p, dx, dy, leftOrDown)
  {
    if !PastEdge(g, p, dx, dy, leftOrDown) {
      OnWalkInGrid(g, b, dx, dy, leftOrDown, p);
      if At(g, p) == Wall && At(g, BoxLine(p, dx, dy)) != Wall {
        var next := WallNext(p, dx, dy, leftOrDown);
        OnWalkNext(g, b, dx, dy, leftOrDown, p);
        assert WalkAt(p, dx, dy, leftOrDown, 0) == p;
        forall k: nat | Passes(g, dx, dy, leftOrDown, WalkAt(next, dx, dy, leftOrDown, k))
          ensures At(g, BoxLine(WalkAt(next, dx, dy, leftOrDown, k), dx, dy)) != Box
        {
          assert WalkAt(p, dx, dy, leftOrDown, k + 1) == WalkAt(next, dx, dy, leftOrDown, k);
        }
        WallRunBoxesOnTargets(g, b, dx, dy, leftOrDown, next);
      }
    }
  }

  /** One counted position of the walk: its box-line cell is added to what the rest of the walk reports. */
  lemma WallRunStep(g: Grid, b: Pos, dx: int, dy: int, leftOrDown: bool, p: Pos)
    requires Rectangular(g) && OnWalk(g, b, dx, dy, leftOrDown, p) && !PastEdge(g, p, dx, dy, leftOrDown)
    requires InGrid(g, p) && InGrid(g, BoxLine(p, dx, dy)) && At(g, p) == Wall && At(g, BoxLine(p, dx, dy)) != Wall
    ensures OnWalk(g, b, dx, dy, leftOrDown, WallNext(p, dx, dy, leftOrDown))
    ensures var s := At(g, BoxLine(p, dx, dy)); var r := WallRun(g, b, dx, dy, leftOrDown, WallNext(p, dx, dy, leftOrDown));
      WallRun(g, b, dx, dy, leftOrDown, p) == (r.0, r.1 + Ind(s == Dest || s == BoxAtDest), r.2 + Ind(s == Box || s == BoxAtDest))
  {
    OnWalkNext(g, b, dx, dy, leftOrDown, p);
  }

  /** The three places the walk ends: past the edge, off the wall, or against a wall on the box line. */
  lemma WallRunEnds(g: Grid, b: Pos, dx: int, dy: int, leftOrDown: bool, p: Pos)
    requires Rectangular(g) && OnWalk(g, b, dx, dy, leftOrDown, p)
    ensures PastEdge(g, p, dx, dy, leftOrDown) ==> WallRun(g, b, dx, dy, leftOrDown, p) == (false, 0, 0)
    ensures !PastEdge(g, p, dx, dy, leftOrDown) ==> InGrid(g, p) && InGrid(g, BoxLine(p, dx, dy))
    ensures !PastEdge(g, p, dx, dy, leftOrDown) && At(g, p) != Wall ==> WallRun(g, b, dx, dy, leftOrDown, p) == (false, 0, 0)
    ensures !PastEdge(g, p, dx, dy, leftOrDown) && At(g, p) == Wall && At(g, BoxLine(p, dx, dy)) == Wall ==>
      WallRun(g, b, dx, dy, leftOrDown, p) == (true, 0, 0)
  {
    if !PastEdge(g, p, dx, dy, leftOrDown) {
      OnWalkInGrid(g, b, dx, dy, leftOrDown, p);
    }
  }

  /** The counting branch of expand_wall: S_DEST counts as a destination, S_BOX as a box, S_BOX_AT_DEST as both. */
  method CountBoxLineCell(s: Cell, numOfDest: nat, numOfBox: nat) returns (dests: nat, boxes: nat)
    ensures dests == numOfDest + Ind(s == Dest || s == BoxAtDest)
    ensures boxes == numOfBox + Ind(s == Box || s == BoxAtDest)
  {
    dests, boxes := numOfDest, numOfBox;
    if s == Dest {
      dests := dests + 1;
    } else if s == Box {
      boxes := boxes + 1;
    } else if s == BoxAtDest {
      boxes := boxes + 1;
      dests := dests + 1;
    }
  }

  /** expand_wall: the while loop from the walk's start, with its two counters. */
  method ExpandWall(g: Grid, b: Pos, dx: int, dy: int, leftOrDown: bool) returns (hasWall: bool, numOfDest: nat, numOfBox: nat)
    requires Rectangular(g) && Interior(g, b) && IsMove(dx, dy)
    ensures var r := WallRun(g, b, dx, dy, leftOrDown, WallStart(b, dx, dy, leftOrDown));
      hasWall == r.0 && numOfDest == r.1 && numOfBox == r.2
  {
    var start := WallStart(b, dx, dy, leftOrDown);
    var x, y := start.x, start.y;
    ghost var whole := WallRun(g, b, dx, dy, leftOrDown, start);
    numOfDest, numOfBox := 0, 0;
    while true
      invariant OnWalk(g, b, dx, dy, leftOrDown, Pos(x, y))
      invariant var r := WallRun(g, b, dx, dy, leftOrDown, Pos(x, y));
        whole.0 == r.0 && whole.1 == r.1 + numOfDest && whole.2 == r.2 + numOfBox
      decreases WalkMeasure(g, Pos(x, y), dx, dy, leftOrDown)
    {
      var here := Pos(x, y);
      WallRunEnds(g, b, dx, dy, leftOrDown, here);
      // The edge test: x < 0 or x >= len(layout[0]) along a row, y < 0 or y >= len(layout) along a column.
      if PastEdge(g, here, dx, dy, leftOrDown) {
        break;
      }
      assert g[y][x] == At(g, here) && g[y - dy][x - dx] == At(g, BoxLine(here, dx, dy));
      if g[y][x] == Wall {
        var s := g[y - dy][x - dx];
        if s == Wall {
          return true, numOfDest, numOfBox;
        }
        WallRunStep(g, b, dx, dy, leftOrDown, here);
        numOfDest, numOfBox := CountBoxLineCell(s, numOfDest, numOfBox);
      } else {
        break;
      }
      OnWalkNext(g, b, dx, dy, leftOrDown, here);
      if dx == 0 {
        x := x + if leftOrDown then -1 else 1;
      } else {
        y := y + if leftOrDown then -1 else 1;
      }
      assert Pos(x, y) == WallNext(here, dx, dy, leftOrDown);
    }
    return false, numOfDest, numOfBox;
  }

  // ---------------------------------------------------------------------------
  // is_ok.
  // ---------------------------------------------------------------------------

  /** The wall-run part of is_ok: walls bound both walks and the run holds fewer destinations than boxes. */
  predicate WallRunsOverfull(g: Grid, b: Pos, dx: int, dy: int)
    requires Rectangular(g) && Interior(g, b) && IsMove(dx, dy)
  {
    var low := WallRun(g, b, dx, dy, true, WallStart(b, dx, dy, true));
    var high := WallRun(g, b, dx, dy, false, WallStart(b, dx, dy, false));
    low.0 && high.0 && low.1 + high.1 < low.2 + high.2
  }

  /**
    is_ok(state, box_pos, dx, dy) for a box just pushed by (dx, dy) to `b`: false when a corner quad
    is stuck, or when the wall runs on both sides are bounded and overfull.
  */
  predicate IsOk(g: Grid, b: Pos, dx: int, dy: int)
    requires WellFormed(g) && InGrid(g, b) && !IsStaticBlock(At(g, b)) && IsMove(dx, dy)
  {
    NonStaticInterior(g, b);
    && !(exists i :: 0 <= i < 4 && (QuadsInGrid(g, b, Diagonals[i]); QuadStuck(g, Quad(b, Diagonals[i]))))
    && !WallRunsOverfull(g, b, dx, dy)
  }

  /** is_ok as the source writes it: the quad loop, then the right/up walk only after a bounded left/down one. */
  method IsOkCheck(g: Grid, b: Pos, dx: int, dy: int) returns (ok: bool)
    requires WellFormed(g) && InGrid(g, b) && !IsStaticBlock(At(g, b)) && IsMove(dx, dy)
    ensures ok == IsOk(g, b, dx, dy)
  {
    NonStaticInterior(g, b);
    var stuck := AnyQuadStuck(g, b);
    if stuck {
      return false;
    }
    var hasLeftOrDownWall, numOfDest1, numOfBox1 := ExpandWall(g, b, dx, dy, true);
    if hasLeftOrDownWall {
      var hasRightOrUpWall, numOfDest2, numOfBox2 := ExpandWall(g, b, dx, dy, false);
      if hasRightOrUpWall {
        if numOfDest1 + numOfDest2 < numOfBox1 + numOfBox2 {
          return false;
        }
      }
    }
    return true;
  }
}
