/**
  The board model of the Sokoban solver (space.py): the eight cell kinds, the four moves,
  a board value (the grid plus the mover's position, which is what two states are compared
  by), the move rule, and the mutable `SokobanState` object whose in-place updates
  implement it.

  Coordinates are `layout[y][x]`. The source indexes without bounds checks; the model asks
  instead for a rectangular level whose border cells are all static blocks, which keeps
  every probed index inside the grid.
*/
module Space {
  import opened Wrappers

  /** S_WALL, S_SPACE, S_OUTSIZE, S_BOX, S_BOX_AT_DEST, S_DEST, S_MAN, S_MAN_AT_DEST. */
  datatype Cell = Wall | Open | Outside | Box | BoxAtDest | Dest | Man | ManAtDest

  /** The moves 'l', 'r', 'd', 'u' with their unit offsets. */
  datatype Action = Left | Right | Down | Up {
    function Dx(): int {
      match this
      case Left => -1
      case Right => 1
      case _ => 0
    }

    function Dy(): int {
      match this
      case Down => -1
      case Up => 1
      case _ => 0
    }

    /** The move whose offset is the negation of this one's. */
    function Opposite(): (o: Action)
      ensures o.Dx() == -Dx() && o.Dy() == -Dy()
    {
      match this
      case Left => Right
      case Right => Left
      case Down => Up
      case Up => Down
    }
  }

  /** ACTIONS, in the order the dictionary lists them. */
  const Actions: seq<Action> := [Left, Right, Down, Up]

  datatype Pos = Pos(x: int, y: int)

  function Ahead(p: Pos, a: Action): Pos {
    Pos(p.x + a.Dx(), p.y + a.Dy())
  }

  function Behind(p: Pos, a: Action): Pos {
    Pos(p.x - a.Dx(), p.y - a.Dy())
  }

  type Grid = seq<seq<Cell>>

  /** is_dest */
  predicate IsDest(c: Cell) {
    c == Dest || c == ManAtDest || c == BoxAtDest
  }

  /** is_static_block */
  predicate IsStaticBlock(c: Cell) {
    c == Wall || c == Outside
  }

  /** The cell kinds `has_space` accepts: the mover or a box may enter. */
  predicate IsSpaceKind(c: Cell) {
    c == Open || c == Dest
  }

  /** The cell kinds `has_box` accepts. */
  predicate IsBoxKind(c: Cell) {
    c == Box || c == BoxAtDest
  }

  predicate IsManKind(c: Cell) {
    c == Man || c == ManAtDest
  }

  /** A destination not yet covered by a box. */
  predicate IsPendingDest(c: Cell) {
    c == Dest || c == ManAtDest
  }

  /** The cell `enter_man` writes over `c`. */
  function ManEntered(c: Cell): Cell {
    if IsDest(c) then ManAtDest else Man
  }

  /** The cell `leave_man` writes over `c` (a cell without the mover is left alone). */
  function ManLeft(c: Cell): Cell {
    if c == Man then Open else if c == ManAtDest then Dest else c
  }

  /** The cell `enter_box` writes over `c`. */
  function BoxEntered(c: Cell): Cell {
    if IsDest(c) then BoxAtDest else Box
  }

  predicate InGrid(g: Grid, p: Pos) {
    0 <= p.y < |g| && 0 <= p.x < |g[p.y]|
  }

  function At(g: Grid, p: Pos): Cell
    requires InGrid(g, p)
  {
    g[p.y][p.x]
  }

  /** The grid with the cell at `p` replaced by `c`. */
  function Set(g: Grid, p: Pos, c: Cell): Grid
    requires InGrid(g, p)
  {
    g[p.y := g[p.y][p.x := c]]
  }

  predicate Rectangular(g: Grid) {
    |g| > 0 && forall y :: 0 <= y < |g| ==> |g[y]| == |g[0]|
  }

  /** A rectangular level whose outermost rows and columns hold only static blocks. */
  predicate WellFormed(g: Grid) {
    && Rectangular(g)
    && (forall y, x :: 0 <= y < |g| && 0 <= x < |g[y]| && (y == 0 || y == |g| - 1 || x == 0 || x == |g[y]| - 1)
          ==> IsStaticBlock(g[y][x]))
  }

  predicate Interior(g: Grid, p: Pos)
    requires Rectangular(g)
  {
    1 <= p.y < |g| - 1 && 1 <= p.x < |g[0]| - 1
  }

  /** `q` is `p` or one of its eight neighbours. */
  predicate Near(p: Pos, q: Pos) {
    -1 <= q.x - p.x <= 1 && -1 <= q.y - p.y <= 1
  }

  /** Every cell one step (or one diagonal step) away from a cell that is not a static block is in the grid. */
  lemma NonStaticInterior(g: Grid, p: Pos)
    requires WellFormed(g) && InGrid(g, p) && !IsStaticBlock(At(g, p))
    ensures Interior(g, p)
    ensures forall q :: Near(p, q) ==> InGrid(g, q)
  {
    forall q | Near(p, q)
      ensures InGrid(g, q)
    {
      assert |g[q.y]| == |g[0]|;
    }
  }

  /** The state a search compares (`__eq__`, `__hash__`): the grid and the mover's position. */
  datatype Board = Board(layout: Grid, man: Pos)

  /** What `try_move2` needs in order to probe only cells inside the grid. */
  predicate Movable(b: Board) {
    WellFormed(b.layout) && InGrid(b.layout, b.man) && !IsStaticBlock(At(b.layout, b.man))
  }

  /** The number of cells of `g` satisfying `f`. */
  function CountRow(r: seq<Cell>, f: Cell -> bool): nat
    decreases |r|
  {
    if r == [] then 0 else CountRow(r[..|r| - 1], f) + (if f(r[|r| - 1]) then 1 else 0)
  }

  function Count(g: Grid, f: Cell -> bool): nat
    decreases |g|
  {
    if g == [] then 0 else Count(g[..|g| - 1], f) + CountRow(g[|g| - 1], f)
  }

  /** A level with exactly one mover, standing where the board says. */
  predicate ValidBoard(b: Board) {
    Movable(b) && IsManKind(At(b.layout, b.man)) && Count(b.layout, IsManKind) == 1
  }

  /** is_finished, as a property of the grid: no destination is left without a box. */
  predicate Finished(g: Grid) {
    forall y, x :: 0 <= y < |g| && 0 <= x < |g[y]| ==> !IsPendingDest(g[y][x])
  }

  /** `enter_man(x, y)` on a board value. */
  function ManEnters(b: Board, p: Pos): Board
    requires InGrid(b.layout, p)
  {
    Board(Set(b.layout, p, ManEntered(At(b.layout, p))), p)
  }

  /** `leave_man(x, y)` on a board value. */
  function ManLeaves(b: Board, p: Pos): Board
    requires InGrid(b.layout, p)
  {
    b.(layout := Set(b.layout, p, ManLeft(At(b.layout, p))))
  }

  /** `enter_box(x, y)` on a board value. */
  function BoxEnters(b: Board, p: Pos): Board
    requires InGrid(b.layout, p)
  {
    b.(layout := Set(b.layout, p, BoxEntered(At(b.layout, p))))
  }

  /** The successor board of one move, and where the pushed box landed (if it was a push). */
  datatype Transition = Transition(next: Board, pushed: Option<Pos>)

  lemma MoveProbesInGrid(b: Board, a: Action)
    requires Movable(b)
    ensures InGrid(b.layout, Ahead(b.man, a))
    ensures !IsStaticBlock(At(b.layout, Ahead(b.man, a))) ==> InGrid(b.layout, Ahead(Ahead(b.man, a), a))
  {
    NonStaticInterior(b.layout, b.man);
    var n := Ahead(b.man, a);
    if !IsStaticBlock(At(b.layout, n)) {
      NonStaticInterior(b.layout, n);
    }
  }

  /**
    `try_move2` on a board value: a step onto open space or a destination, a push of the
    box ahead onto the open space or destination beyond it, or nothing.
  */
  function Step(b: Board, a: Action): Option<Transition>
    requires Movable(b)
  {
    MoveProbesInGrid(b, a);
    var m := b.man;
    var n := Ahead(m, a);
    var nn := Ahead(n, a);
    if IsSpaceKind(At(b.layout, n)) then
      Some(Transition(ManLeaves(ManEnters(b, n), m), None))
    else if IsBoxKind(At(b.layout, n)) && IsSpaceKind(At(b.layout, nn)) then
      Some(Transition(ManLeaves(ManEnters(BoxEnters(b, nn), n), m), Some(nn)))
    else
      None
  }

  /** A step onto open space or a destination moves the mover one cell and pushes nothing. */
  lemma StepWalks(b: Board, a: Action)
    requires Movable(b) && IsSpaceKind(At(b.layout, Ahead(b.man, a)))
    ensures Step(b, a).Some?
    ensures var t := Step(b, a).value;
      && t.pushed == None
      && t.next.man == Ahead(b.man, a)
      && IsManKind(At(t.next.layout, t.next.man))
      && At(t.next.layout, b.man) == ManLeft(At(b.layout, b.man))
  {
    MoveProbesInGrid(b, a);
  }

  /**
    With a box ahead and room beyond it, the box lands two cells ahead, that position is
    returned, and the mover takes the box's old cell.
  */
  lemma StepPushes(b: Board, a: Action)
    requires Movable(b)
    requires IsBoxKind(At(b.layout, Ahead(b.man, a)))
    requires InGrid(b.layout, Ahead(Ahead(b.man, a), a)) && IsSpaceKind(At(b.layout, Ahead(Ahead(b.man, a), a)))
    ensures Step(b, a).Some?
    ensures var t := Step(b, a).value; var nn := Ahead(Ahead(b.man, a), a);
      && t.pushed == Some(nn)
      && InGrid(t.next.layout, nn) && IsBoxKind(At(t.next.layout, nn))
      && t.next.man == Ahead(b.man, a)
      && IsManKind(At(t.next.layout, t.next.man))
  {
    MoveProbesInGrid(b, a);
  }

  /** Every other configuration (a blocker ahead, or a box with a blocked far side) yields no move. */
  lemma StepBlocked(b: Board, a: Action)
    requires Movable(b)
    requires !IsSpaceKind(At(b.layout, Ahead(b.man, a)))
    requires !IsBoxKind(At(b.layout, Ahead(b.man, a)))
      || !InGrid(b.layout, Ahead(Ahead(b.man, a), a))
      || !IsSpaceKind(At(b.layout, Ahead(Ahead(b.man, a), a)))
    ensures Step(b, a) == None
  {
    MoveProbesInGrid(b, a);
  }

  /**
    A move changes only the mover's old cell, the mover's new cell and, for a push, the
    box's new cell; the grid keeps its dimensions.
  */
  lemma StepFrame(b: Board, a: Action, p: Pos)
    requires Movable(b) && Step(b, a).Some? && InGrid(b.layout, p)
    requires p != b.man && p != Ahead(b.man, a)
    requires Step(b, a).value.pushed.Some? ==> p != Step(b, a).value.pushed.value
    ensures var g' := Step(b, a).value.next.layout;
      |g'| == |b.layout| && (forall y :: 0 <= y < |g'| ==> |g'[y]| == |b.layout[y]|) && At(g', p) == At(b.layout, p)
  {
    MoveProbesInGrid(b, a);
  }

  /** Moves keep the destination-ness of every cell: no destination appears or vanishes. */
  lemma StepKeepsDestinations(b: Board, a: Action, p: Pos)
    requires Movable(b) && Step(b, a).Some? && InGrid(b.layout, p)
    ensures var g' := Step(b, a).value.next.layout; InGrid(g', p) && IsDest(At(g', p)) == IsDest(At(b.layout, p))
  {
    MoveProbesInGrid(b, a);
  }

  function Ind(c: bool): int {
    if c then 1 else 0
  }

  lemma {:induction false} CountRowSet(r: seq<Cell>, x: int, c: Cell, f: Cell -> bool)
    requires 0 <= x < |r|
    ensures CountRow(r[x := c], f) + Ind(f(r[x])) == CountRow(r, f) + Ind(f(c))
    decreases |r|
  {
    var r' := r[x := c];
    if x == |r| - 1 {
      assert r'[..|r'| - 1] == r[..|r| - 1];
    } else {
      assert r'[..|r'| - 1] == r[..|r| - 1][x := c];
      CountRowSet(r[..|r| - 1], x, c, f);
    }
  }

  /** Overwriting one cell changes a count only by what left and what arrived. */
  lemma {:induction false} CountSet(g: Grid, p: Pos, c: Cell, f: Cell -> bool)
    requires InGrid(g, p)
    ensures Count(Set(g, p, c), f) + Ind(f(At(g, p))) == Count(g, f) + Ind(f(c))
    decreases |g|
  {
    var g' := Set(g, p, c);
    if p.y == |g| - 1 {
      assert g'[..|g'| - 1] == g[..|g| - 1];
      CountRowSet(g[p.y], p.x, c, f);
    } else {
      assert g'[..|g'| - 1] == Set(g[..|g| - 1], p, c);
      CountSet(g[..|g| - 1], p, c, f);
    }
  }

  /** The layout after a move, written as the cell writes of `try_move2`, in its order. */
  lemma StepLayout(b: Board, a: Action)
    requires Movable(b) && Step(b, a).Some?
    ensures InGrid(b.layout, Ahead(b.man, a))
    ensures var g, m, n := b.layout, b.man, Ahead(b.man, a);
      if IsSpaceKind(At(g, n)) then
        Step(b, a).value.next.layout == Set(Set(g, n, ManEntered(At(g, n))), m, ManLeft(At(g, m)))
      else
        InGrid(g, Ahead(n, a)) && IsBoxKind(At(g, n)) && IsSpaceKind(At(g, Ahead(n, a))) &&
        Step(b, a).value.next.layout ==
          Set(Set(Set(g, Ahead(n, a), BoxEntered(At(g, Ahead(n, a)))), n, ManEntered(At(g, n))), m, ManLeft(At(g, m)))
  {
    MoveProbesInGrid(b, a);
  }

  /** Three writes to three distinct cells change a count by what they remove and what they add. */
  lemma CountSet3(g: Grid, p1: Pos, c1: Cell, p2: Pos, c2: Cell, p3: Pos, c3: Cell, f: Cell -> bool)
    requires InGrid(g, p1) && InGrid(g, p2) && InGrid(g, p3)
    requires p1 != p2 && p2 != p3 && p1 != p3
    ensures Count(Set(Set(Set(g, p1, c1), p2, c2), p3, c3), f) + Ind(f(At(g, p1))) + Ind(f(At(g, p2))) + Ind(f(At(g, p3)))
         == Count(g, f) + Ind(f(c1)) + Ind(f(c2)) + Ind(f(c3))
  {
    var g1 := Set(g, p1, c1);
    var g2 := Set(g1, p2, c2);
    CountSet(g, p1, c1, f);
    assert At(g1, p2) == At(g, p2);
    CountSet(g1, p2, c2, f);
    assert At(g2, p3) == At(g, p3);
    CountSet(g2, p3, c3, f);
  }

  lemma CountSet2(g: Grid, p1: Pos, c1: Cell, p2: Pos, c2: Cell, f: Cell -> bool)
    requires InGrid(g, p1) && InGrid(g, p2) && p1 != p2
    ensures Count(Set(Set(g, p1, c1), p2, c2), f) + Ind(f(At(g, p1))) + Ind(f(At(g, p2)))
         == Count(g, f) + Ind(f(c1)) + Ind(f(c2))
  {
    var g1 := Set(g, p1, c1);
    CountSet(g, p1, c1, f);
    assert At(g1, p2) == At(g, p2);
    CountSet(g1, p2, c2, f);
  }

  /** A move keeps the number of boxes (S_BOX plus S_BOX_AT_DEST). */
  lemma StepKeepsBoxCount(b: Board, a: Action)
    requires Movable(b) && Step(b, a).Some?
    ensures Count(Step(b, a).value.next.layout, IsBoxKind) == Count(b.layout, IsBoxKind)
  {
    StepLayout(b, a);
    var g, m, n := b.layout, b.man, Ahead(b.man, a);
    var nn := Ahead(n, a);
    if IsSpaceKind(At(g, n)) {
      CountSet2(g, n, ManEntered(At(g, n)), m, ManLeft(At(g, m)), IsBoxKind);
    } else {
      CountSet3(g, nn, BoxEntered(At(g, nn)), n, ManEntered(At(g, n)), m, ManLeft(At(g, m)), IsBoxKind);
    }
  }

  /** A move keeps a board with a single mover such a board, with the mover where the board says. */
  lemma StepKeepsValid(b: Board, a: Action)
    requires ValidBoard(b) && Step(b, a).Some?
    ensures ValidBoard(Step(b, a).value.next)
  {
    StepLayout(b, a);
    StepKeepsMovable(b, a);
    var g, m, n := b.layout, b.man, Ahead(b.man, a);
    var nn := Ahead(n, a);
    if IsSpaceKind(At(g, n)) {
      CountSet2(g, n, ManEntered(At(g, n)), m, ManLeft(At(g, m)), IsManKind);
    } else {
      CountSet3(g, nn, BoxEntered(At(g, nn)), n, ManEntered(At(g, n)), m, ManLeft(At(g, m)), IsManKind);
    }
  }

  /** A move keeps the level bordered and leaves the mover on a cell that is not a static block. */
  lemma StepKeepsMovable(b: Board, a: Action)
    requires Movable(b) && Step(b, a).Some?
    ensures Movable(Step(b, a).value.next)
    ensures |Step(b, a).value.next.layout| == |b.layout|
    ensures forall y :: 0 <= y < |b.layout| ==> |Step(b, a).value.next.layout[y]| == |b.layout[y]|
  {
    MoveProbesInGrid(b, a);
    NonStaticInterior(b.layout, b.man);
    var n := Ahead(b.man, a);
    NonStaticInterior(b.layout, n);
    if !IsSpaceKind(At(b.layout, n)) {
      NonStaticInterior(b.layout, Ahead(n, a));
    }
  }

  /** A mover-only move followed by the opposite move gives back a board equal to the original. */
  lemma WalkRoundTrip(b: Board, a: Action)
    requires Movable(b) && IsManKind(At(b.layout, b.man))
    requires InGrid(b.layout, Ahead(b.man, a)) && IsSpaceKind(At(b.layout, Ahead(b.man, a)))
    ensures Step(b, a).Some? && Movable(Step(b, a).value.next)
    ensures Step(Step(b, a).value.next, a.Opposite()) == Some(Transition(b, None))
  {
    StepLayout(b, a);
    StepKeepsMovable(b, a);
    var g, m, n := b.layout, b.man, Ahead(b.man, a);
    var b' := Step(b, a).value.next;
    var g' := b'.layout;
    assert b'.man == n;
    assert Ahead(n, a.Opposite()) == m;
    assert At(g', m) == ManLeft(At(g, m));
    assert At(g', n) == ManEntered(At(g, n));
    StepLayout(b', a.Opposite());
    var g'' := Step(b', a.Opposite()).value.next.layout;
    assert g'' == Set(Set(g', m, At(g, m)), n, At(g, n));
    forall y | 0 <= y < |g|
      ensures g''[y] == g[y]
    {
      assert |g''[y]| == |g[y]|;
      forall x | 0 <= x < |g[y]|
        ensures g''[y][x] == g[y][x]
      {
      }
    }
    assert g'' == g;
  }

  /**
    The mover's object from space.py: the grid and the mover's position, updated in place by
    `enter_man`, `leave_man` and `enter_box`.
  */
  class SokobanState {
    var layout: Grid
    var manPos: Pos

    function Value(): Board
      reads this
    {
      Board(layout, manPos)
    }

    constructor (layout: Grid, manPos: Pos)
      ensures Value() == Board(layout, manPos)
    {
      this.layout := layout;
      this.manPos := manPos;
    }

    /** `__eq__`: two states are equal exactly when their board values are. */
    predicate Equals(other: SokobanState?)
      reads this, other
      ensures Equals(other) <==> other != null && Value() == other.Value()
    {
      other != null && manPos == other.manPos && layout == other.layout
    }

    predicate HasSpace(x: int, y: int)
      reads this
      requires InGrid(layout, Pos(x, y))
    {
      IsSpaceKind(layout[y][x])
    }

    predicate HasBox(x: int, y: int)
      reads this
      requires InGrid(layout, Pos(x, y))
    {
      IsBoxKind(layout[y][x])
    }

    method EnterMan(x: int, y: int)
      requires InGrid(layout, Pos(x, y))
      modifies this
      ensures Value() == ManEnters(old(Value()), Pos(x, y))
    {
      manPos := Pos(x, y);
      if IsDest(layout[y][x]) {
        layout := layout[y := layout[y][x := ManAtDest]];
      } else {
        layout := layout[y := layout[y][x := Man]];
      }
    }

    method LeaveMan(x: int, y: int)
      requires InGrid(layout, Pos(x, y))
      modifies this
      ensures Value() == ManLeaves(old(Value()), Pos(x, y))
    {
      if layout[y][x] == Man {
        layout := layout[y := layout[y][x := Open]];
      } else if layout[y][x] == ManAtDest {
        layout := layout[y := layout[y][x := Dest]];
      } else {
        assert layout[y][x := layout[y][x]] == layout[y];
      }
    }

    method EnterBox(x: int, y: int)
      requires InGrid(layout, Pos(x, y))
      modifies this
      ensures Value() == BoxEnters(old(Value()), Pos(x, y))
    {
      if IsDest(layout[y][x]) {
        layout := layout[y := layout[y][x := BoxAtDest]];
      } else {
        layout := layout[y := layout[y][x := Box]];
      }
    }

    /** `copy`: a new object holding the same board (the grid is a value, so the copy is deep). */
    method Copy() returns (c: SokobanState)
      ensures fresh(c) && c.Value() == Value()
    {
      c := new SokobanState(layout, manPos);
    }

    /**
      `try_move2`: all writes go to a fresh copy, so the receiver is never modified (the
      method has no modifies clause); the copy is the successor board of `Step`.
    */
    method TryMove2(a: Action) returns (nxt: SokobanState?, newBoxPos: Option<Pos>)
      requires Movable(Value())
      ensures Step(Value(), a).None? ==> nxt == null && newBoxPos == None
      ensures Step(Value(), a).Some? ==>
        nxt != null && fresh(nxt) && Step(Value(), a).value == Transition(nxt.Value(), newBoxPos)
    {
      MoveProbesInGrid(Value(), a);
      var x, y := manPos.x, manPos.y;
      var nx, ny := x + a.Dx(), y + a.Dy();
      var nnx, nny := nx + a.Dx(), ny + a.Dy();
      if HasSpace(nx, ny) {
        nxt := Copy();
        nxt.EnterMan(nx, ny);
        nxt.LeaveMan(x, y);
        newBoxPos := None;
      } else if HasBox(nx, ny) && HasSpace(nnx, nny) {
        nxt := Copy();
        nxt.EnterBox(nnx, nny);
        nxt.EnterMan(nx, ny);
        nxt.LeaveMan(x, y);
        newBoxPos := Some(Pos(nnx, nny));
      } else {
        nxt, newBoxPos := null, None;
      }
    }

    /** `try_move`: the successor object alone. */
    method TryMove(a: Action) returns (nxt: SokobanState?)
      requires Movable(Value())
      ensures Step(Value(), a).None? ==> nxt == null
      ensures Step(Value(), a).Some? ==> nxt != null && fresh(nxt) && Step(Value(), a).value.next == nxt.Value()
    {
      var pushed;
      nxt, pushed := TryMove2(a);
    }

    /** `is_finished`: scans the grid and stops at the first uncovered destination. */
    method IsFinished() returns (r: bool)
      ensures r <==> Finished(layout)
    {
      var y := 0;
      while y < |layout|
        invariant 0 <= y <= |layout|
        invariant forall i, j :: 0 <= i < y && 0 <= j < |layout[i]| ==> !IsPendingDest(layout[i][j])
      {
        var x := 0;
        while x < |layout[y]|
          invariant 0 <= x <= |layout[y]|
          invariant forall j :: 0 <= j < x ==> !IsPendingDest(layout[y][j])
        {
          if layout[y][x] == Dest || layout[y][x] == ManAtDest {
            return false;
          }
          x := x + 1;
        }
        y := y + 1;
      }
      return true;
    }
  }

  lemma {:induction false} CountRowPrefix(r: seq<Cell>, i: nat, f: Cell -> bool)
    requires i <= |r|
    ensures CountRow(r[..i], f) <= CountRow(r, f)
    decreases |r| - i
  {
    if i < |r| {
      assert r[..i + 1][..i] == r[..i];
      CountRowPrefix(r, i + 1, f);
    } else {
      assert r[..i] == r;
    }
  }

  lemma {:induction false} CountPrefix(g: Grid, i: nat, f: Cell -> bool)
    requires i <= |g|
    ensures Count(g[..i], f) <= Count(g, f)
    decreases |g| - i
  {
    if i < |g| {
      assert g[..i + 1][..i] == g[..i];
      CountPrefix(g, i + 1, f);
    } else {
      assert g[..i] == g;
    }
  }

  /** The number of cells satisfying `f` in rows below `y` and, in row `y`, left of `x`. */
  function CountBefore(g: Grid, y: nat, x: nat, f: Cell -> bool): nat
    requires y < |g| && x <= |g[y]|
  {
    Count(g[..y], f) + CountRow(g[y][..x], f)
  }

  lemma CountBeforeStep(g: Grid, y: nat, x: nat, f: Cell -> bool)
    requires y < |g| && x < |g[y]|
    ensures CountBefore(g, y, x + 1, f) == CountBefore(g, y, x, f) + Ind(f(g[y][x]))
  {
    assert g[y][..x + 1][..x] == g[y][..x];
  }

  lemma CountBeforeRow(g: Grid, y: nat, f: Cell -> bool)
    requires y < |g|
    ensures CountBefore(g, y, |g[y]|, f) == Count(g[..y + 1], f)
    ensures CountBefore(g, y, 0, f) == Count(g[..y], f)
  {
    assert g[..y + 1][..y] == g[..y];
    assert g[y][..|g[y]|] == g[y];
  }

  lemma CountBeforeBound(g: Grid, y: nat, x: nat, f: Cell -> bool)
    requires y < |g| && x <= |g[y]|
    ensures CountBefore(g, y, x, f) <= Count(g, f)
  {
    CountRowPrefix(g[y], x, f);
    CountPrefix(g, y + 1, f);
    assert g[..y + 1][..y] == g[..y];
  }

  /**
    The single-mover check of `SokobanLoader.load_maps` for one parsed map: the mover's
    position when exactly one cell holds S_MAN or S_MAN_AT_DEST, "man not found" when none
    does, "multiple man" as soon as a second one is met.
  */
  method FindMan(level: Grid) returns (r: Result<Pos>)
    ensures r.Ok? <==> Count(level, IsManKind) == 1
    ensures r.Ok? ==> InGrid(level, r.value) && IsManKind(At(level, r.value))
    ensures r == Err("man not found") <==> Count(level, IsManKind) == 0
    ensures r == Err("multiple man") <==> Count(level, IsManKind) >= 2
  {
    var man: Option<Pos> := None;
    var y := 0;
    while y < |level|
      invariant 0 <= y <= |level|
      invariant Count(level[..y], IsManKind) <= 1
      invariant man.None? <==> Count(level[..y], IsManKind) == 0
      invariant man.Some? ==> InGrid(level, man.value) && IsManKind(At(level, man.value))
    {
      var x := 0;
      CountBeforeRow(level, y, IsManKind);
      while x < |level[y]|
        invariant 0 <= x <= |level[y]|
        invariant CountBefore(level, y, x, IsManKind) <= 1
        invariant man.None? <==> CountBefore(level, y, x, IsManKind) == 0
        invariant man.Some? ==> InGrid(level, man.value) && IsManKind(At(level, man.value))
      {
        CountBeforeStep(level, y, x, IsManKind);
        if level[y][x] == Man || level[y][x] == ManAtDest {
          if man.Some? {
            CountBeforeBound(level, y, x + 1, IsManKind);
            return Err("multiple man");
          }
          man := Some(Pos(x, y));
        }
        x := x + 1;
      }
      CountBeforeRow(level, y, IsManKind);
      y := y + 1;
    }
    assert level[..|level|] == level;
    if man.Some? {
      r := Ok(man.value);
    } else {
      r := Err("man not found");
    }
  }

  /**
    The rest of `load_maps` over already-parsed maps: one state per level, or the error of the
    first level that does not have exactly one mover.
  */
  method LoadStates(maps: seq<Grid>) returns (r: Result<seq<Board>>)
    ensures r.Ok? ==> |r.value| == |maps| && forall i :: 0 <= i < |maps| ==>
      r.value[i].layout == maps[i] && Count(maps[i], IsManKind) == 1
      && InGrid(maps[i], r.value[i].man) && IsManKind(At(maps[i], r.value[i].man))
    ensures r.Err? ==> exists i :: (0 <= i < |maps| && Count(maps[i], IsManKind) != 1
      && (forall j :: 0 <= j < i ==> Count(maps[j], IsManKind) == 1)
      && r.error == (if Count(maps[i], IsManKind) == 0 then "man not found" else "multiple man"))
  {
    var states: seq<Board> := [];
    var i := 0;
    while i < |maps|
      invariant 0 <= i <= |maps| && |states| == i
      invariant forall k :: 0 <= k < i ==>
        states[k].layout == maps[k] && Count(maps[k], IsManKind) == 1
        && InGrid(maps[k], states[k].man) && IsManKind(At(maps[k], states[k].man))
    {
      var man := FindMan(maps[i]);
      if man.Err? {
        return Err(man.error);
      }
      states := states + [Board(maps[i], man.value)];
      i := i + 1;
    }
    r := Ok(states);
  }
}
