/**
  The Sokoban search problem of solver.py: the cells the heuristic reads and the heuristic,
  successor generation (pruned by `is_ok`, in module Pruning), the goal test, and the A*
  solve over them.
*/
module Solver {
  import opened Wrappers
  import opened Space
  import opened Util
  import opened Search
  import opened Assignment
  import opened Pruning

  // ---------------------------------------------------------------------------
  // The cells sokobanHeuristic collects.
  // ---------------------------------------------------------------------------

  /** The positions in row `y` of `g`, columns below `x`, whose cell satisfies `f`, left to right. */
  function RowCells(g: Grid, y: nat, x: nat, f: Cell -> bool): seq<Pos>
    requires y < |g| && x <= |g[y]|
    decreases x
  {
    if x == 0 then [] else RowCells(g, y, x - 1, f) + (if f(g[y][x - 1]) then [Pos(x - 1, y)] else [])
  }

  /** The positions in the rows above `y` whose cell satisfies `f`, in row-scan order. */
  function GridCells(g: Grid, y: nat, f: Cell -> bool): seq<Pos>
    requires y <= |g|
    decreases y
  {
    if y == 0 then [] else GridCells(g, y - 1, f) + RowCells(g, y - 1, |g[y - 1]|, f)
  }

  /** All positions whose cell satisfies `f`, in the order `enumerate` visits them. */
  function Cells(g: Grid, f: Cell -> bool): seq<Pos> {
    GridCells(g, |g|, f)
  }

  lemma {:induction false} RowCellsExactly(g: Grid, y: nat, x: nat, f: Cell -> bool, p: Pos)
    requires y < |g| && x <= |g[y]|
    ensures p in RowCells(g, y, x, f) <==> p.y == y && 0 <= p.x < x && f(g[y][p.x])
    decreases x
  {
    if x > 0 {
      RowCellsExactly(g, y, x - 1, f, p);
    }
  }

  lemma {:induction false} GridCellsExactly(g: Grid, y: nat, f: Cell -> bool, p: Pos)
    requires y <= |g|
    ensures p in GridCells(g, y, f) <==> 0 <= p.y < y && InGrid(g, p) && f(At(g, p))
    decreases y
  {
    if y > 0 {
      GridCellsExactly(g, y - 1, f, p);
      RowCellsExactly(g, y - 1, |g[y - 1]|, f, p);
    }
  }

  /** Cells lists exactly the positions of the grid whose cell satisfies `f`. */
  lemma CellsExactly(g: Grid, f: Cell -> bool, p: Pos)
    ensures p in Cells(g, f) <==> InGrid(g, p) && f(At(g, p))
  {
    GridCellsExactly(g, |g|, f, p);
  }

  /** The boxes the heuristic assigns: S_BOX only, a box on a destination is done. */
  predicate IsPlainBox(c: Cell) {
    c == Box
  }

  /** The destinations it assigns them to: S_DEST and S_MAN_AT_DEST, those without a box. */
  predicate IsFreeDest(c: Cell) {
    c == Dest || c == ManAtDest
  }

  /** The least distance from `man` to a box of the list. */
  function NearestBox(boxes: seq<Pos>, man: Pos): (d: nat)
    requires boxes != []
    ensures forall i :: 0 <= i < |boxes| ==> d <= Distance(boxes[i], man)
    ensures exists i :: 0 <= i < |boxes| && d == Distance(boxes[i], man)
    decreases |boxes|
  {
    if |boxes| == 1 then Distance(boxes[0], man)
    else
      var rest := NearestBox(boxes[..|boxes| - 1], man);
      var last := Distance(boxes[|boxes| - 1], man);
      assert forall i :: 0 <= i < |boxes| - 1 ==> boxes[..|boxes| - 1][i] == boxes[i];
      if last < rest then last else rest
  }

  /**
    sokobanHeuristic: the optimal box-to-destination assignment cost, plus the distance from
    the mover to the nearest box less one, never below zero; 0 without plain boxes.
  */
  function Heuristic(b: Board): (h: int)
    ensures h >= 0
    ensures Cells(b.layout, IsPlainBox) == [] ==> h == 0
    ensures Cells(b.layout, IsPlainBox) != [] ==>
      h >= MunkresDistance(Cells(b.layout, IsPlainBox), Cells(b.layout, IsFreeDest))
  {
    var boxes := Cells(b.layout, IsPlainBox);
    var dests := Cells(b.layout, IsFreeDest);
    if boxes == [] then 0
    else
      var manDistance := NearestBox(boxes, b.man) - 1;
      MunkresDistance(boxes, dests) + (if manDistance < 0 then 0 else manDistance)
  }

  /** The mover term is the nearest-box distance less one, clamped at zero. */
  lemma HeuristicManTerm(b: Board)
    requires Cells(b.layout, IsPlainBox) != []
    ensures var boxes := Cells(b.layout, IsPlainBox);
      Heuristic(b) - MunkresDistance(boxes, Cells(b.layout, IsFreeDest))
        == if NearestBox(boxes, b.man) == 0 then 0 else NearestBox(boxes, b.man) - 1
  {
  }

  /** The nested loop of sokobanHeuristic building `boxes` and `dests` in row-scan order. */
  method CollectBoxesAndDests(g: Grid) returns (boxes: seq<Pos>, dests: seq<Pos>)
    ensures boxes == Cells(g, IsPlainBox) && dests == Cells(g, IsFreeDest)
  {
    boxes, dests := [], [];
    var y := 0;
    while y < |g|
      invariant 0 <= y <= |g|
      invariant boxes == GridCells(g, y, IsPlainBox) && dests == GridCells(g, y, IsFreeDest)
    {
      var x := 0;
      while x < |g[y]|
        invariant 0 <= x <= |g[y]|
        invariant boxes == GridCells(g, y, IsPlainBox) + RowCells(g, y, x, IsPlainBox)
        invariant dests == GridCells(g, y, IsFreeDest) + RowCells(g, y, x, IsFreeDest)
      {
        var c := g[y][x];
        if c == Box {
          boxes := boxes + [Pos(x, y)];
        } else if c == Dest || c == ManAtDest {
          dests := dests + [Pos(x, y)];
        }
        x := x + 1;
      }
      y := y + 1;
    }
  }

  /** sokobanHeuristic(state, _problem): the collected cells, then the sum of the two terms. */
  method SokobanHeuristic(b: Board) returns (h: int)
    ensures h == Heuristic(b)
  {
    var boxes, dests := CollectBoxesAndDests(b.layout);
    var destDistance := 0;
    if boxes != [] {
      destDistance := MunkresDistance(boxes, dests);
    }
    var manDistance: int := 0;
    if boxes != [] {
      var nearest := MinDistance(boxes, b.man);
      manDistance := nearest as int - 1;
      if manDistance < 0 {
        manDistance := 0;
      }
    }
    h := destDistance + manDistance;
  }

  /** `min([distance(bp, mp) for bp in boxes])`, as a loop. */
  method MinDistance(boxes: seq<Pos>, man: Pos) returns (d: nat)
    requires boxes != []
    ensures d == NearestBox(boxes, man)
  {
    d := Distance(boxes[0], man);
    for i := 1 to |boxes|
      invariant d == NearestBox(boxes[..i], man)
    {
      assert boxes[..i + 1][..i] == boxes[..i];
      var e := Distance(boxes[i], man);
      if e < d {
        d := e;
      }
    }
    assert boxes[..|boxes|] == boxes;
  }

  // ---------------------------------------------------------------------------
  // getSuccessors.
  // ---------------------------------------------------------------------------

  /** The successor getSuccessors lists for action `a`, if any. */
  function SuccessorFor(b: Board, a: Action): Option<Succ<Board, Action>>
    requires Movable(b)
  {
    match Step(b, a)
    case None => None
    case Some(t) =>
      if t.pushed.Some? then
        StepPushedBox(b, a);
        ActionIsMove(a);
        if IsOk(t.next.layout, t.pushed.value, a.Dx(), a.Dy()) then Some(Succ(t.next, a, 1)) else None
      else Some(Succ(t.next, a, 1))
  }

  /** A pushed box lands on a cell of the bordered level that is not a static block. */
  lemma StepPushedBox(b: Board, a: Action)
    requires Movable(b) && Step(b, a).Some? && Step(b, a).value.pushed.Some?
    ensures var t := Step(b, a).value;
      WellFormed(t.next.layout) && InGrid(t.next.layout, t.pushed.value) && !IsStaticBlock(At(t.next.layout, t.pushed.value))
  {
    MoveProbesInGrid(b, a);
    StepKeepsMovable(b, a);
    StepPushes(b, a);
  }

  function SuccessorsOf(b: Board, acts: seq<Action>): seq<Succ<Board, Action>>
    requires Movable(b)
  {
    if acts == [] then []
    else
      var rest := SuccessorsOf(b, acts[..|acts| - 1]);
      match SuccessorFor(b, acts[|acts| - 1])
      case None => rest
      case Some(s) => rest + [s]
  }

  /** getSuccessors: the successors over ACTIONS in order. */
  function Successors(b: Board): seq<Succ<Board, Action>>
    requires Movable(b)
  {
    SuccessorsOf(b, Actions)
  }

  lemma {:induction false} SuccessorsOfExactly(b: Board, acts: seq<Action>, s: Succ<Board, Action>)
    requires Movable(b)
    ensures |SuccessorsOf(b, acts)| <= |acts|
    ensures s in SuccessorsOf(b, acts) <==> exists i :: 0 <= i < |acts| && SuccessorFor(b, acts[i]) == Some(s)
    decreases |acts|
  {
    if acts != [] {
      var init := acts[..|acts| - 1];
      SuccessorsOfExactly(b, init, s);
      assert forall i :: 0 <= i < |init| ==> init[i] == acts[i];
      if s in SuccessorsOf(b, acts) && s !in SuccessorsOf(b, init) {
        assert SuccessorFor(b, acts[|acts| - 1]) == Some(s);
      }
    }
  }

  /**
    getSuccessors lists at most one successor per action, each the move's board at cost 1: a
    walk always, a push exactly when is_ok accepts the pushed box.
  */
  lemma SuccessorsExactly(b: Board, s: Succ<Board, Action>)
    requires Movable(b)
    ensures |Successors(b)| <= 4
    ensures s in Successors(b) <==>
      && Step(b, s.action).Some? && s.state == Step(b, s.action).value.next && s.cost == 1
      && (Step(b, s.action).value.pushed.Some? ==>
            (StepPushedBox(b, s.action); ActionIsMove(s.action);
             IsOk(s.state.layout, Step(b, s.action).value.pushed.value, s.action.Dx(), s.action.Dy())))
  {
    SuccessorsOfExactly(b, Actions, s);
    assert Actions[ActionIndex(s.action)] == s.action;
    forall a | SuccessorFor(b, a) == Some(s)
      ensures a == s.action
    {
    }
  }

  /** The position of an action in ACTIONS. */
  function ActionIndex(a: Action): (i: nat)
    ensures i < |Actions| && Actions[i] == a
  {
    match a
    case Left => 0
    case Right => 1
    case Down => 2
    case Up => 3
  }

  /** getSuccessors as the source writes it: try_move2 on the state object for each action. */
  method GetSuccessors(state: SokobanState) returns (successors: seq<Succ<Board, Action>>)
    requires Movable(state.Value())
    ensures successors == Successors(state.Value())
  {
    successors := [];
    for i := 0 to |Actions|
      invariant successors == SuccessorsOf(state.Value(), Actions[..i])
    {
      var action := Actions[i];
      assert Actions[..i + 1][..i] == Actions[..i];
      var nxt, newBoxPos := state.TryMove2(action);
      if nxt != null {
        if newBoxPos.Some? {
          StepPushedBox(state.Value(), action);
          ActionIsMove(action);
          var ok := IsOkCheck(nxt.layout, newBoxPos.value, action.Dx(), action.Dy());
          if !ok {
            continue;
          }
        }
        successors := successors + [Succ(nxt.Value(), action, 1)];
      }
    }
    assert Actions[..|Actions|] == Actions;
  }

  /** isGoalState: the state's is_finished. */
  method IsGoalState(state: SokobanState) returns (goal: bool)
    ensures goal <==> Finished(state.layout)
  {
    goal := state.IsFinished();
  }

  // ---------------------------------------------------------------------------
  // SokobanSearchProblem and solve.
  // ---------------------------------------------------------------------------

  /** SokobanSearchProblem(startState) over board values. */
  function SokobanProblem(start: Board): Problem<Board, Action> {
    Problem(start, (b: Board) => Finished(b.layout), (b: Board) requires Movable(b) => Successors(b))
  }

  const AllCells: set<Cell> := {Wall, Open, Outside, Box, BoxAtDest, Dest, Man, ManAtDest}

  /** All rows of `w` cells (a finite set). */
  ghost function AllRows(w: nat): set<seq<Cell>>
    decreases w
  {
    if w == 0 then {[]} else set r, c | r in AllRows(w - 1) && c in AllCells :: r + [c]
  }

  /** All grids of `h` rows of `w` cells (a finite set). */
  ghost function AllGrids(h: nat, w: nat): set<Grid>
    decreases h
  {
    if h == 0 then {[]} else set g, r | g in AllGrids(h - 1, w) && r in AllRows(w) :: g + [r]
  }

  lemma {:induction false} AllRowsComplete(r: seq<Cell>)
    ensures r in AllRows(|r|)
    decreases |r|
  {
    if r != [] {
      var init := r[..|r| - 1];
      AllRowsComplete(init);
      var c := r[|r| - 1];
      assert c in AllCells by {
        match c
        case Wall => case Open => case Outside => case Box =>
        case BoxAtDest => case Dest => case Man => case ManAtDest =>
      }
      assert r == init + [c];
    }
  }

  lemma {:induction false} AllGridsComplete(g: Grid, w: nat)
    requires forall y :: 0 <= y < |g| ==> |g[y]| == w
    ensures g in AllGrids(|g|, w)
    decreases |g|
  {
    if g != [] {
      var init := g[..|g| - 1];
      AllGridsComplete(init, w);
      AllRowsComplete(g[|g| - 1]);
      assert g == init + [g[|g| - 1]];
    }
  }

  /** Every board of the start's dimensions that `try_move2` can be applied to: a finite set. */
  ghost function SameShape(start: Board): set<Board>
    requires Rectangular(start.layout)
  {
    var h, w := |start.layout|, |start.layout[0]|;
    set g, x, y | g in AllGrids(h, w) && 0 <= x < w && 0 <= y < h && Movable(Board(g, Pos(x, y))) :: Board(g, Pos(x, y))
  }

  lemma InSameShape(start: Board, b: Board)
    requires Rectangular(start.layout) && Movable(b)
    requires |b.layout| == |start.layout| && |b.layout[0]| == |start.layout[0]|
    ensures b in SameShape(start)
  {
    AllGridsComplete(b.layout, |start.layout[0]|);
  }

  lemma {:induction false} AllRowsWidth(w: nat, r: seq<Cell>)
    requires r in AllRows(w)
    ensures |r| == w
    decreases w
  {
    if w > 0 {
      var r', c :| r' in AllRows(w - 1) && c in AllCells && r == r' + [c];
      AllRowsWidth(w - 1, r');
    }
  }

  lemma {:induction false} AllGridsShape(h: nat, w: nat, g: Grid)
    requires g in AllGrids(h, w)
    ensures |g| == h && forall y :: 0 <= y < h ==> |g[y]| == w
    decreases h
  {
    if h > 0 {
      var g', r :| g' in AllGrids(h - 1, w) && r in AllRows(w) && g == g' + [r];
      AllGridsShape(h - 1, w, g');
      AllRowsWidth(w, r);
    }
  }

  lemma SameShapeMembers(start: Board, b: Board)
    requires Rectangular(start.layout) && b in SameShape(start)
    ensures Movable(b) && |b.layout| == |start.layout| && |b.layout[0]| == |start.layout[0]|
  {
    AllGridsShape(|start.layout|, |start.layout[0]|, b.layout);
  }

  /** A successor of a board of the start's shape has that shape too. */
  lemma SuccessorInSameShape(start: Board, b: Board, s: Succ<Board, Action>)
    requires Movable(start) && b in SameShape(start) && s in Successors(b)
    ensures s.state in SameShape(start)
  {
    SameShapeMembers(start, b);
    SuccessorsExactly(b, s);
    StepKeepsMovable(b, s.action);
    InSameShape(start, s.state);
  }

  /** The boards of the start's shape hold the start and every successor of their members. */
  lemma SameShapeBounds(start: Board)
    requires Movable(start)
    ensures BoundedBy(SokobanProblem(start), SameShape(start))
  {
    var p := SokobanProblem(start);
    var u := SameShape(start);
    InSameShape(start, start);
    forall b | b in u
      ensures p.isGoal.requires(b) && p.successors.requires(b)
    {
      SameShapeMembers(start, b);
    }
    forall b, i | b in u && p.successors.requires(b) && 0 <= i < |p.successors(b)|
      ensures p.successors(b)[i].state in u
    {
      SameShapeMembers(start, b);
      SuccessorInSameShape(start, b, Successors(b)[i]);
    }
  }

  /**
    solve: A* with sokobanHeuristic. The result is the action sequence to a finished board,
    or no actions when no finished board is reachable; the count is the number of boards
    expanded.
  */
  method Solve(start: Board) returns (actions: seq<Action>, exploredSize: nat)
    requires Movable(start)
    ensures || (exists t: Board :: Finished(t.layout) && Reaches(SokobanProblem(start), start, actions, t))
            || (actions == [] && forall path, t :: Reaches(SokobanProblem(start), start, path, t) ==> !Finished(t.layout))
    ensures Finished(start.layout) ==> actions == [] && exploredSize == 0
  {
    var p := SokobanProblem(start);
    SameShapeBounds(start);
    var explored, progress;
    actions, explored, progress := AStarSearch(p, Heuristic, SameShape(start));
    exploredSize := |explored|;
  }
}
