/**
  The deadlock precomputation of deadlock.py. Every cell that is not a static block gets a
  dense space id in row-scan order. A breadth-first search over box pushes fills a space-id
  by space-id push-distance matrix. Each cell is then mapped to the `Area` of the
  destinations it can still push a box to; a cell that reaches none maps to the shared
  DEADLOCK_AREA, whose capacity is 0.
*/
module Deadlock {
  import opened Space
  import opened Search

  /** UNREACHABLE: the distance-matrix entry of a pair of cells with no push path between them. */
  const Unreachable: int := 10000000

  /** `Area`: how many destinations its cells can reach, and the cells that reach no others. */
  class Area {
    const reachableDestCount: nat
    var positions: seq<Pos>

    constructor (reachableDestCount: nat)
      ensures this.reachableDestCount == reachableDestCount && positions == []
    {
      this.reachableDestCount := reachableDestCount;
      positions := [];
    }
  }

  /** A cell that gets a space id. */
  predicate Free(c: Cell) {
    !IsStaticBlock(c)
  }

  /** The space id of cell (x, y): -1 on a static block, otherwise the number of free cells before it in row-scan order. */
  function IdOf(g: Grid, y: nat, x: nat): int
    requires y < |g| && x < |g[y]|
  {
    if IsStaticBlock(g[y][x]) then -1 else CountBefore(g, y, x, Free)
  }

  /** The layout of `_prepare_spaceid` before its scan: -1 everywhere. */
  function Unnumbered(g: Grid): (ids: seq<seq<int>>)
    ensures |ids| == |g| && forall y :: 0 <= y < |g| ==> |ids[y]| == |g[y]| && forall x :: 0 <= x < |g[y]| ==> ids[y][x] == -1
  {
    seq(|g|, y requires 0 <= y < |g| => seq(|g[y]|, x => -1))
  }

  /** Cell (x, y) comes before (x0, y0) in row-scan order. */
  predicate Scanned(y0: int, x0: int, y: int, x: int) {
    y < y0 || (y == y0 && x < x0)
  }

  /**
    The numbering of `_prepare_spaceid` is complete up to (x0, y0): scanned free cells carry
    their ids, every other cell -1, `pos` takes each id back to its cell and `isdest` says
    whether that cell is a destination.
  */
  ghost predicate NumberedUpTo(g: Grid, ids: seq<seq<int>>, pos: seq<Pos>, isdest: seq<bool>, y0: int, x0: int) {
    && |ids| == |g| && (forall y :: 0 <= y < |g| ==> |ids[y]| == |g[y]|)
    && |isdest| == |pos|
    && (forall y, x :: 0 <= y < |g| && 0 <= x < |g[y]| ==>
          ids[y][x] == if Scanned(y0, x0, y, x) then IdOf(g, y, x) else -1)
    && (forall y, x :: 0 <= y < |g| && 0 <= x < |g[y]| && ids[y][x] > -1 ==>
          ids[y][x] < |pos| && pos[ids[y][x]] == Pos(x, y))
    && (forall i :: 0 <= i < |pos| ==>
          InGrid(g, pos[i]) && ids[pos[i].y][pos[i].x] == i && isdest[i] == IsDest(At(g, pos[i])))
  }

  /** The result of `_prepare_spaceid` on level `g`: every cell numbered, `n` ids in all. */
  ghost predicate SpaceIds(g: Grid, ids: seq<seq<int>>, pos: seq<Pos>, isdest: seq<bool>, n: nat) {
    NumberedUpTo(g, ids, pos, isdest, |g|, 0) && n == |pos| == Count(g, Free)
  }

  /** Numbering cell (x, y), the body of `_prepare_spaceid`'s inner loop. */
  method NumberCell(g: Grid, ids: seq<seq<int>>, pos: seq<Pos>, isdest: seq<bool>, y: nat, x: nat)
    returns (ids': seq<seq<int>>, pos': seq<Pos>, isdest': seq<bool>)
    requires y < |g| && x < |g[y]|
    requires NumberedUpTo(g, ids, pos, isdest, y, x) && |pos| == CountBefore(g, y, x, Free)
    ensures NumberedUpTo(g, ids', pos', isdest', y, x + 1) && |pos'| == CountBefore(g, y, x + 1, Free)
  {
    CountBeforeStep(g, y, x, Free);
    ids', pos', isdest' := ids, pos, isdest;
    if !IsStaticBlock(g[y][x]) {
      ids' := ids[y := ids[y][x := |pos|]];
      isdest' := isdest + [IsDest(g[y][x])];
      pos' := pos + [Pos(x, y)];
    }
  }

  /** A row scanned to its end is the same as the next row scanned to its start. */
  lemma NumberedRowEnd(g: Grid, ids: seq<seq<int>>, pos: seq<Pos>, isdest: seq<bool>, y: nat)
    requires y < |g| && NumberedUpTo(g, ids, pos, isdest, y, |g[y]|)
    ensures NumberedUpTo(g, ids, pos, isdest, y + 1, 0)
  {
    forall yy, xx | 0 <= yy < |g| && 0 <= xx < |g[yy]|
      ensures Scanned(y, |g[y]|, yy, xx) == Scanned(y + 1, 0, yy, xx)
    {
    }
  }

  /**
    `_prepare_spaceid`'s scan: each free cell, in row-scan order, gets the next id, and its
    position and destination flag are appended.
  */
  method NumberSpaces(g: Grid) returns (ids: seq<seq<int>>, pos: seq<Pos>, isdest: seq<bool>, n: nat)
    ensures SpaceIds(g, ids, pos, isdest, n)
  {
    ids := Unnumbered(g);
    pos := [];
    isdest := [];
    for y := 0 to |g|
      invariant NumberedUpTo(g, ids, pos, isdest, y, 0)
      invariant |pos| == Count(g[..y], Free)
    {
      CountBeforeRow(g, y, Free);
      for x := 0 to |g[y]|
        invariant NumberedUpTo(g, ids, pos, isdest, y, x)
        invariant |pos| == CountBefore(g, y, x, Free)
      {
        ids, pos, isdest := NumberCell(g, ids, pos, isdest, y, x);
      }
      NumberedRowEnd(g, ids, pos, isdest, y);
    }
    assert g[..|g|] == g;
    n := |pos|;
  }

  /** A state of `PushBoxProblem`: (space id, x, y) of the box's cell. */
  type PushState = (int, int, int)

  /** The cells `getSuccessors` probes around (x, y), both one step ahead and one step behind, lie inside `ids`. */
  predicate PushProbes(ids: seq<seq<int>>, s: PushState) {
    && 1 <= s.2 < |ids| - 1 && 1 <= s.1 < |ids[s.2]| - 1
    && s.1 + 1 < |ids[s.2 - 1]| && s.1 + 1 < |ids[s.2 + 1]|
  }

  /** Every numbered cell of `ids` sits inside the level, so that all its probes are in range. */
  predicate Bordered(ids: seq<seq<int>>) {
    forall y, x :: 0 <= y < |ids| && 0 <= x < |ids[y]| && ids[y][x] > -1 ==> PushProbes(ids, (ids[y][x], x, y))
  }

  /** A push in direction `a` is possible: both the box's target and the mover's cell behind it have ids. */
  predicate CanPush(ids: seq<seq<int>>, s: PushState, a: Action)
    requires PushProbes(ids, s)
  {
    ids[s.2 + a.Dy()][s.1 + a.Dx()] > -1 && ids[s.2 - a.Dy()][s.1 - a.Dx()] > -1
  }

  /** The state after pushing the box in direction `a`. */
  function PushTarget(ids: seq<seq<int>>, s: PushState, a: Action): PushState
    requires PushProbes(ids, s)
  {
    (ids[s.2 + a.Dy()][s.1 + a.Dx()], s.1 + a.Dx(), s.2 + a.Dy())
  }

  /** The successor triples produced for the directions in `acts`, in that order. */
  function PushSuccessorsFor(ids: seq<seq<int>>, s: PushState, acts: seq<Action>): seq<Succ<PushState, Action>>
    requires PushProbes(ids, s)
    decreases |acts|
  {
    if acts == [] then []
    else
      var a := acts[|acts| - 1];
      PushSuccessorsFor(ids, s, acts[..|acts| - 1]) + if CanPush(ids, s, a) then [Succ(PushTarget(ids, s, a), a, 1)] else []
  }

  function PushSuccessors(ids: seq<seq<int>>, s: PushState): seq<Succ<PushState, Action>>
    requires PushProbes(ids, s)
  {
    PushSuccessorsFor(ids, s, Actions)
  }

  lemma {:induction false} PushSuccessorsForExactly(ids: seq<seq<int>>, s: PushState, acts: seq<Action>)
    requires PushProbes(ids, s)
    ensures |PushSuccessorsFor(ids, s, acts)| <= |acts|
    ensures forall t, a, c :: Succ(t, a, c) in PushSuccessorsFor(ids, s, acts) <==>
      a in acts && c == 1 && CanPush(ids, s, a) && t == PushTarget(ids, s, a)
    decreases |acts|
  {
    if acts != [] {
      var init := acts[..|acts| - 1];
      PushSuccessorsForExactly(ids, s, init);
      assert acts == init + [acts[|acts| - 1]];
    }
  }

  /**
    `PushBoxProblem.getSuccessors`: at most one push per direction of ACTIONS, each of
    cost 1; a push in direction `a` is there exactly when the box's target cell and the
    mover's cell behind the box both have ids, and it moves the box one step along `a`.
  */
  lemma PushSuccessorsExactly(ids: seq<seq<int>>, s: PushState)
    requires PushProbes(ids, s)
    ensures |PushSuccessors(ids, s)| <= 4
    ensures forall t, a, c :: Succ(t, a, c) in PushSuccessors(ids, s) <==>
      c == 1 && CanPush(ids, s, a) && t == PushTarget(ids, s, a)
  {
    PushSuccessorsForExactly(ids, s, Actions);
    forall a: Action
      ensures a in Actions
    {
      match a
      case Left => assert Actions[0] == a;
      case Right => assert Actions[1] == a;
      case Down => assert Actions[2] == a;
      case Up => assert Actions[3] == a;
    }
  }

  /** `PushBoxProblem.getSuccessors` as the source writes it: a loop over ACTIONS appending triples. */
  method GetPushSuccessors(ids: seq<seq<int>>, s: PushState) returns (successors: seq<Succ<PushState, Action>>)
    requires PushProbes(ids, s)
    ensures successors == PushSuccessors(ids, s)
  {
    successors := [];
    for i := 0 to |Actions|
      invariant successors == PushSuccessorsFor(ids, s, Actions[..i])
    {
      var a := Actions[i];
      assert Actions[..i + 1][..i] == Actions[..i];
      var nx, ny := s.1 + a.Dx(), s.2 + a.Dy();
      var manX, manY := s.1 - a.Dx(), s.2 - a.Dy();
      var nid := ids[ny][nx];
      if nid > -1 && ids[manY][manX] > -1 {
        successors := successors + [Succ((nid, nx, ny), a, 1)];
      }
    }
    assert Actions[..|Actions|] == Actions;
  }

  /** `PushBoxProblem(spaceid_layout, startid, x, y)`: no state is a goal, so a search explores everything reachable. */
  function PushBoxProblem(ids: seq<seq<int>>, startId: int, x: int, y: int): Problem<PushState, Action> {
    Problem((startId, x, y), (s: PushState) => false, (s: PushState) requires PushProbes(ids, s) => PushSuccessors(ids, s))
  }

  /** The states a push search can meet: one per numbered cell. */
  ghost function PushUniverse(ids: seq<seq<int>>): set<PushState> {
    set y, x | 0 <= y < |ids| && 0 <= x < |ids[y]| && ids[y][x] > -1 :: (ids[y][x], x, y)
  }

  lemma PushBounded(ids: seq<seq<int>>, x: nat, y: nat)
    requires Bordered(ids) && y < |ids| && x < |ids[y]| && ids[y][x] > -1
    ensures BoundedBy(PushBoxProblem(ids, ids[y][x], x, y), PushUniverse(ids))
  {
    var p := PushBoxProblem(ids, ids[y][x], x, y);
    var u := PushUniverse(ids);
    forall s, i | s in u && p.successors.requires(s) && 0 <= i < |p.successors(s)|
      ensures p.successors(s)[i].state in u
    {
      var t := p.successors(s)[i];
      PushSuccessorsExactly(ids, s);
      assert t in PushSuccessors(ids, s);
      var nx, ny := s.1 + t.action.Dx(), s.2 + t.action.Dy();
      assert t.state == (ids[ny][nx], nx, ny);
    }
  }

  /** Distinct states of `universe` have distinct ids below `n`, so there are at most `n` of them. */
  lemma {:induction false} CardByIds(universe: set<PushState>, n: nat)
    requires forall s :: s in universe ==> 0 <= s.0 < n
    requires forall s, t :: s in universe && t in universe && s.0 == t.0 ==> s == t
    ensures |universe| <= n
    decreases n
  {
    if n > 0 {
      var below := set s | s in universe && s.0 < n - 1;
      CardByIds(below, n - 1);
      var top := universe - below;
      if top != {} {
        var u :| u in top;
        assert top == {u};
      }
      assert universe == below + top;
    } else {
      assert forall s :: s !in universe;
    }
  }

  /** Numbered cells lie inside a bordered level, so push probes stay in range. */
  lemma SpaceIdsBordered(g: Grid, ids: seq<seq<int>>, pos: seq<Pos>, isdest: seq<bool>, n: nat)
    requires WellFormed(g) && SpaceIds(g, ids, pos, isdest, n)
    ensures Bordered(ids)
  {
    forall y, x | 0 <= y < |ids| && 0 <= x < |ids[y]| && ids[y][x] > -1
      ensures PushProbes(ids, (ids[y][x], x, y))
    {
      assert !IsStaticBlock(g[y][x]);
      NonStaticInterior(g, Pos(x, y));
      assert |g[y - 1]| == |g[y + 1]| == |g[y]| == |g[0]|;
    }
  }

  /** The push state of the box standing on the cell with id `i`. */
  function StateOf(pos: seq<Pos>, i: nat): PushState
    requires i < |pos|
  {
    (i, pos[i].x, pos[i].y)
  }

  /**
    What a push search needs of the numbering: probes stay in range, and every state of the
    push universe is the state of its own id, so there are at most |pos| of them.
  */
  ghost predicate Indexed(ids: seq<seq<int>>, pos: seq<Pos>) {
    && Bordered(ids)
    && (forall s :: s in PushUniverse(ids) ==> 0 <= s.0 < |pos| && s == StateOf(pos, s.0))
    && |PushUniverse(ids)| <= |pos|
  }

  lemma SpaceIdsIndexed(g: Grid, ids: seq<seq<int>>, pos: seq<Pos>, isdest: seq<bool>, n: nat)
    requires WellFormed(g) && SpaceIds(g, ids, pos, isdest, n)
    ensures Indexed(ids, pos)
  {
    SpaceIdsBordered(g, ids, pos, isdest, n);
    CardByIds(PushUniverse(ids), n);
  }

  /** `path` is a sequence of pushes that takes a box from the cell with id `i` to the cell with id `j`. */
  ghost predicate PushPath(ids: seq<seq<int>>, pos: seq<Pos>, i: nat, j: nat, path: seq<Action>)
    requires i < |pos| && j < |pos|
  {
    Reaches(PushBoxProblem(ids, i, pos[i].x, pos[i].y), StateOf(pos, i), path, StateOf(pos, j))
  }

  ghost predicate PushReachable(ids: seq<seq<int>>, pos: seq<Pos>, i: nat, j: nat)
    requires i < |pos| && j < |pos|
  {
    exists path :: PushPath(ids, pos, i, j, path)
  }

  /**
    Row `i` of the distance matrix once `_prepare_one` has run for id `i`: 0 on the
    diagonal, the length of a push path (fewer than |pos| pushes) for every id the box can
    be pushed to, UNREACHABLE for every other.
  */
  ghost predicate DistanceRow(ids: seq<seq<int>>, pos: seq<Pos>, row: seq<int>, i: nat)
    requires i < |pos|
  {
    && |row| == |pos| && row[i] == 0
    && forall j :: 0 <= j < |pos| ==>
         if PushReachable(ids, pos, i, j) then 0 <= row[j] < |pos| && exists path :: |path| == row[j] && PushPath(ids, pos, i, j, path)
         else row[j] == Unreachable
  }

  /** A row of the matrix as `_prepare_spaceid` leaves it. */
  ghost predicate Untouched(row: seq<int>, n: nat) {
    |row| == n && forall j :: 0 <= j < n ==> row[j] == Unreachable
  }

  /** What the search of `_prepare_one` from the box on cell (x, y), whose id is `i`, promises about the map it returns. */
  ghost predicate ExploredFrom(ids: seq<seq<int>>, i: int, x: int, y: int, explored: map<PushState, seq<Action>>) {
    var p := PushBoxProblem(ids, i, x, y);
    && explored.Keys <= PushUniverse(ids)
    && (forall s :: s in explored ==> Reaches(p, p.start, explored[s], s) && |explored[s]| < |explored|)
    && p.start in explored && explored[p.start] == []
    && (forall path, t :: Reaches(p, p.start, path, t) ==> t in explored)
  }

  /**
    `PushBoxProblem.solve`: a breadth-first search from the box on cell (x, y). No state is
    a goal, so the search returns no actions (the source asserts this) together with every
    state it explored and the path it found to each.
  */
  method PushSolve(ids: seq<seq<int>>, x: nat, y: nat) returns (explored: map<PushState, seq<Action>>)
    requires Bordered(ids) && y < |ids| && x < |ids[y]| && ids[y][x] > -1
    ensures ExploredFrom(ids, ids[y][x], x, y, explored)
  {
    var problem := PushBoxProblem(ids, ids[y][x], x, y);
    PushBounded(ids, x, y);
    var actions;
    actions, explored := BreadthFirstSearch(problem, PushUniverse(ids));
    assert forall t :: t in PushUniverse(ids) ==> !problem.isGoal(t);
    assert |actions| == 0;
  }

  /** One entry of the row: the explored path to `j` when there is one, else no push path reaches `j`. */
  lemma ExploredEntry(ids: seq<seq<int>>, pos: seq<Pos>, i: nat, explored: map<PushState, seq<Action>>, j: nat)
    requires Indexed(ids, pos) && i < |pos| && j < |pos| && ExploredFrom(ids, i, pos[i].x, pos[i].y, explored)
    ensures StateOf(pos, j) in explored ==>
      PushPath(ids, pos, i, j, explored[StateOf(pos, j)]) && |explored[StateOf(pos, j)]| < |pos|
    ensures StateOf(pos, j) !in explored ==> !PushReachable(ids, pos, i, j)
  {
    SubsetCard(explored.Keys, PushUniverse(ids));
  }

  /** Writing each explored state's path length into an untouched row gives the distance row of `i`. */
  lemma ExploredRow(ids: seq<seq<int>>, pos: seq<Pos>, i: nat, explored: map<PushState, seq<Action>>, row: seq<int>)
    requires Indexed(ids, pos) && i < |pos| && ExploredFrom(ids, i, pos[i].x, pos[i].y, explored)
    requires RowSoFar(pos, explored, {}, row)
    ensures DistanceRow(ids, pos, row, i)
  {
    forall j | 0 <= j < |pos|
      ensures if PushReachable(ids, pos, i, j) then 0 <= row[j] < |pos| && exists path :: |path| == row[j] && PushPath(ids, pos, i, j, path)
              else row[j] == Unreachable
    {
      ExploredEntry(ids, pos, i, explored, j);
    }
    assert StateOf(pos, i) in explored;
  }

  /** The part of row `row` written so far: the explored states outside `remaining` carry their path lengths. */
  ghost predicate RowSoFar(pos: seq<Pos>, explored: map<PushState, seq<Action>>, remaining: set<PushState>, row: seq<int>) {
    && |row| == |pos|
    && forall j :: 0 <= j < |pos| ==> (row[j] ==
         if StateOf(pos, j) in explored && StateOf(pos, j) !in remaining then |explored[StateOf(pos, j)]| else Unreachable)
  }

  /** Writing the path length of one more explored state, the body of `_prepare_one`'s loop. */
  lemma RowSoFarStep(pos: seq<Pos>, explored: map<PushState, seq<Action>>, remaining: set<PushState>, row: seq<int>,
                     state: PushState)
    requires RowSoFar(pos, explored, remaining, row) && state in remaining && remaining <= explored.Keys
    requires 0 <= state.0 < |pos| && state == StateOf(pos, state.0)
    ensures RowSoFar(pos, explored, remaining - {state}, row[state.0 := |explored[state]|])
  {
  }

  /** `_prepare_distance_matrix` has run `_prepare_one` for the cells before (x0, y0), and for no other. */
  ghost predicate MatrixUpTo(ids: seq<seq<int>>, pos: seq<Pos>, dm: seq<seq<int>>, y0: int, x0: int) {
    && |dm| == |pos|
    && forall i :: 0 <= i < |pos| ==>
         if Scanned(y0, x0, pos[i].y, pos[i].x) then DistanceRow(ids, pos, dm[i], i) else Untouched(dm[i], |pos|)
  }

  /** Visiting cell (x, y): a cell without an id changes nothing, a cell with id `i` gets its distance row. */
  lemma MatrixStep(g: Grid, ids: seq<seq<int>>, pos: seq<Pos>, isdest: seq<bool>, n: nat,
                   dm: seq<seq<int>>, dm': seq<seq<int>>, y: nat, x: nat)
    requires SpaceIds(g, ids, pos, isdest, n) && y < |ids| && x < |ids[y]| && MatrixUpTo(ids, pos, dm, y, x)
    requires ids[y][x] == -1 ==> dm' == dm
    requires ids[y][x] > -1 ==>
      (ids[y][x] < |dm| == |dm'| && dm' == dm[ids[y][x] := dm'[ids[y][x]]] && DistanceRow(ids, pos, dm'[ids[y][x]], ids[y][x]))
    ensures MatrixUpTo(ids, pos, dm', y, x + 1)
  {
    forall i | 0 <= i < |pos|
      ensures Scanned(y, x + 1, pos[i].y, pos[i].x) == (Scanned(y, x, pos[i].y, pos[i].x) || i == ids[y][x])
    {
      assert ids[pos[i].y][pos[i].x] == i;
    }
  }

  /** A row scanned to its end is the same as the next row scanned to its start. */
  lemma MatrixRowEnd(g: Grid, ids: seq<seq<int>>, pos: seq<Pos>, isdest: seq<bool>, n: nat, dm: seq<seq<int>>, y: nat)
    requires SpaceIds(g, ids, pos, isdest, n) && y < |ids| && MatrixUpTo(ids, pos, dm, y, |ids[y]|)
    ensures MatrixUpTo(ids, pos, dm, y + 1, 0)
  {
    forall i | 0 <= i < |pos|
      ensures Scanned(y, |ids[y]|, pos[i].y, pos[i].x) == Scanned(y + 1, 0, pos[i].y, pos[i].x)
    {
      assert InGrid(g, pos[i]);
    }
  }

  /** A space_cnt by space_cnt matrix with one destination flag per id. */
  predicate Square(dm: seq<seq<int>>, isdest: seq<bool>) {
    |dm| == |isdest| && forall i :: 0 <= i < |dm| ==> |dm[i]| == |isdest|
  }

  /** The destination ids below `m` at finite distance in `row`, in ascending order. */
  function ReachableDests(row: seq<int>, isdest: seq<bool>, m: nat): (r: seq<nat>)
    requires m <= |row| && m <= |isdest|
    ensures |r| <= m
  {
    if m == 0 then []
    else ReachableDests(row, isdest, m - 1) + if row[m - 1] < Unreachable && isdest[m - 1] then [m - 1] else []
  }

  /** The tuple holds exactly the destinations below `m` at finite distance, each once and in ascending order. */
  lemma {:induction false} ReachableDestsExactly(row: seq<int>, isdest: seq<bool>, m: nat)
    requires m <= |row| && m <= |isdest|
    ensures forall d: nat :: d in ReachableDests(row, isdest, m) <==> d < m && row[d] < Unreachable && isdest[d]
    ensures forall a, b :: 0 <= a < b < |ReachableDests(row, isdest, m)| ==>
      ReachableDests(row, isdest, m)[a] < ReachableDests(row, isdest, m)[b]
  {
    if m > 0 {
      ReachableDestsExactly(row, isdest, m - 1);
      var r := ReachableDests(row, isdest, m - 1);
      forall a | 0 <= a < |r|
        ensures r[a] < m - 1
      {
        var d: nat := r[a];
        assert d in r;
      }
      var r' := ReachableDests(row, isdest, m);
      if r' != r {
        assert r' == r + [m - 1];
        forall a, b | 0 <= a < b < |r'|
          ensures r'[a] < r'[b]
        {
          if b == |r| {
            assert r'[a] == r[a];
            assert r[a] < m - 1;
            assert r'[b] == m - 1;
          } else {
            assert r'[a] == r[a] && r'[b] == r[b];
            assert r[a] < r[b];
          }
        }
      }
    }
  }

  /** Two rows that agree on which destinations are at finite distance give the same tuple. */
  lemma {:induction false} ReachableDestsAgree(row: seq<int>, row': seq<int>, isdest: seq<bool>, m: nat)
    requires m <= |row| && m <= |row'| && m <= |isdest|
    requires forall d :: 0 <= d < m ==> (row[d] < Unreachable && isdest[d]) == (row'[d] < Unreachable && isdest[d])
    ensures ReachableDests(row, isdest, m) == ReachableDests(row', isdest, m)
  {
    if m > 0 {
      ReachableDestsAgree(row, row', isdest, m - 1);
    }
  }

  /** The tuple `reachable_dests` of cell `i`. */
  function Key(dm: seq<seq<int>>, isdest: seq<bool>, i: nat): seq<nat>
    requires Square(dm, isdest) && i < |dm|
  {
    ReachableDests(dm[i], isdest, |isdest|)
  }

  /** `from_to_reachable_dests` as far as id `m`: the ids below `m` whose tuple is not empty, each with its tuple. */
  function FromToBelow(dm: seq<seq<int>>, isdest: seq<bool>, m: nat): map<nat, seq<nat>>
    requires Square(dm, isdest) && m <= |dm|
  {
    map i: nat | i < m && Key(dm, isdest, i) != [] :: Key(dm, isdest, i)
  }

  function FromTo(dm: seq<seq<int>>, isdest: seq<bool>): map<nat, seq<nat>>
    requires Square(dm, isdest)
  {
    FromToBelow(dm, isdest, |dm|)
  }

  /** Every destination of `a` is one of `b` (`set(b).issuperset(set(a))`). */
  predicate SubsetOf(a: seq<nat>, b: seq<nat>) {
    forall e :: e in a ==> e in b
  }

  /** The positions, in ascending id order below `m`, of the cells whose tuple is covered by `key`. */
  function SubsetCells(fromTo: map<nat, seq<nat>>, pos: seq<Pos>, key: seq<nat>, m: nat): seq<Pos>
    requires m <= |pos|
  {
    if m == 0 then []
    else SubsetCells(fromTo, pos, key, m - 1) + if m - 1 in fromTo && SubsetOf(fromTo[m - 1], key) then [pos[m - 1]] else []
  }

  /** The positions of an area are exactly those of the cells whose tuple it covers. */
  lemma {:induction false} SubsetCellsExactly(fromTo: map<nat, seq<nat>>, pos: seq<Pos>, key: seq<nat>, m: nat)
    requires m <= |pos|
    ensures forall q :: q in SubsetCells(fromTo, pos, key, m) <==>
      exists j: nat :: j < m && j in fromTo && SubsetOf(fromTo[j], key) && q == pos[j]
  {
    if m > 0 {
      SubsetCellsExactly(fromTo, pos, key, m - 1);
    }
  }

  /**
    The first pass of `dests_to_area`: one new `Area` per distinct tuple, in the order the
    tuples first occur, with the tuple's length as its count.
  */
  method MakeAreas(fromTo: map<nat, seq<nat>>, n: nat) returns (destsToArea: map<seq<nat>, Area>, order: seq<seq<nat>>)
    requires forall i :: i in fromTo ==> i < n
    ensures destsToArea.Keys == fromTo.Values
    ensures forall k :: k in destsToArea ==>
      fresh(destsToArea[k]) && destsToArea[k].reachableDestCount == |k| && destsToArea[k].positions == []
    ensures forall k, k' :: k in destsToArea && k' in destsToArea && k != k' ==> destsToArea[k] != destsToArea[k']
    ensures forall k :: k in destsToArea <==> k in order
    ensures forall a, b :: 0 <= a < b < |order| ==> order[a] != order[b]
  {
    destsToArea := map[];
    order := [];
    for fromId := 0 to n
      invariant destsToArea.Keys == set i | i in fromTo && i < fromId :: fromTo[i]
      invariant forall k :: k in destsToArea ==>
        fresh(destsToArea[k]) && destsToArea[k].reachableDestCount == |k| && destsToArea[k].positions == []
      invariant forall k, k' :: k in destsToArea && k' in destsToArea && k != k' ==> destsToArea[k] != destsToArea[k']
      invariant forall k :: k in destsToArea <==> k in order
      invariant forall a, b :: 0 <= a < b < |order| ==> order[a] != order[b]
    {
      if fromId in fromTo {
        var destIds := fromTo[fromId];
        if destIds !in destsToArea {
          var area := new Area(|destIds|);
          destsToArea := destsToArea[destIds := area];
          order := order + [destIds];
        }
      }
    }
    assert forall k :: k in fromTo.Values ==> exists i :: i in fromTo && fromTo[i] == k;
  }

  /**
    The second pass of `_prepare_areas`: every area, in the order of `order`, gets the
    position of every cell whose tuple its own tuple covers, in ascending id order.
  */
  method FillPositions(fromTo: map<nat, seq<nat>>, pos: seq<Pos>, destsToArea: map<seq<nat>, Area>, order: seq<seq<nat>>)
    requires forall i :: i in fromTo ==> i < |pos|
    requires forall k :: k in destsToArea ==> destsToArea[k].positions == []
    requires forall k, k' :: k in destsToArea && k' in destsToArea && k != k' ==> destsToArea[k] != destsToArea[k']
    requires forall k :: k in destsToArea <==> k in order
    requires forall a, b :: 0 <= a < b < |order| ==> order[a] != order[b]
    modifies destsToArea.Values
    ensures forall k :: k in destsToArea ==> destsToArea[k].positions == SubsetCells(fromTo, pos, k, |pos|)
  {
    for t := 0 to |order|
      invariant forall a :: 0 <= a < t ==> destsToArea[order[a]].positions == SubsetCells(fromTo, pos, order[a], |pos|)
      invariant forall a :: t <= a < |order| ==> destsToArea[order[a]].positions == []
    {
      var destIds := order[t];
      var area := destsToArea[destIds];
      label Pass:
      for fromId := 0 to |pos|
        invariant area.positions == SubsetCells(fromTo, pos, destIds, fromId)
        invariant forall a :: 0 <= a < |order| && a != t ==> destsToArea[order[a]].positions == old@Pass(destsToArea[order[a]].positions)
      {
        if fromId in fromTo && SubsetOf(fromTo[fromId], destIds) {
          area.positions := area.positions + [pos[fromId]];
        }
      }
    }
    forall k | k in destsToArea
      ensures destsToArea[k].positions == SubsetCells(fromTo, pos, k, |pos|)
    {
      var a :| 0 <= a < |order| && order[a] == k;
    }
  }

  /**
    With fewer cells than UNREACHABLE, the tuple of cell `i` lists exactly the destinations
    a box on cell `i` can be pushed to.
  */
  lemma KeyMeaning(ids: seq<seq<int>>, pos: seq<Pos>, dm: seq<seq<int>>, isdest: seq<bool>, i: nat)
    requires Square(dm, isdest) && |pos| == |dm| <= Unreachable && i < |dm| && DistanceRow(ids, pos, dm[i], i)
    ensures forall d: nat :: d in Key(dm, isdest, i) <==> d < |dm| && isdest[d] && PushReachable(ids, pos, i, d)
  {
    ReachableDestsExactly(dm[i], isdest, |isdest|);
  }

  /** The values of a sequence (`set(...)`). */
  function Elems(r: seq<nat>): set<nat> {
    set d | d in r
  }

  /** A strictly ascending sequence has as many elements as distinct values. */
  lemma {:induction false} AscendingCard(r: seq<nat>)
    requires forall a, b :: 0 <= a < b < |r| ==> r[a] < r[b]
    ensures |Elems(r)| == |r|
  {
    if r != [] {
      var init, last := r[..|r| - 1], r[|r| - 1];
      assert forall a :: 0 <= a < |init| ==> init[a] == r[a];
      AscendingCard(init);
      assert last !in Elems(init) by {
        forall a | 0 <= a < |init|
          ensures init[a] != last
        {
          assert init[a] == r[a];
        }
      }
      assert r == init + [last];
      assert Elems(r) == Elems(init) + {last};
    }
  }

  /**
    The deadlock tables of one level. They are filled by `prepare`, in the stages
    `_prepare_spaceid`, `_prepare_distance_matrix` and `_prepare_areas`.
  */
  class Deadlock {
    const layout: Grid
    var spaceidLayout: seq<seq<int>>
    var spaceCnt: nat
    var spaceidToIsdest: seq<bool>
    var spaceidToPos: seq<Pos>
    var distanceMatrix: seq<seq<int>>
    var spaceidToArea: map<int, Area>
    /** DEADLOCK_AREA, the one area shared by every cell that reaches no destination. */
    const deadlockArea: Area

    constructor (layout: Grid, deadlockArea: Area)
      requires deadlockArea.reachableDestCount == 0
      ensures this.layout == layout && this.deadlockArea == deadlockArea
      ensures spaceidLayout == [] && spaceCnt == 0 && spaceidToIsdest == [] && spaceidToPos == []
      ensures distanceMatrix == [] && spaceidToArea == map[]
    {
      this.layout := layout;
      this.deadlockArea := deadlockArea;
      spaceidLayout := [];
      spaceCnt := 0;
      spaceidToIsdest := [];
      spaceidToPos := [];
      distanceMatrix := [];
      spaceidToArea := map[];
    }

    /** The space ids are those of `_prepare_spaceid` and the level is bordered. */
    ghost predicate Numbered()
      reads this`spaceidLayout, this`spaceidToPos, this`spaceidToIsdest, this`spaceCnt
    {
      WellFormed(layout) && SpaceIds(layout, spaceidLayout, spaceidToPos, spaceidToIsdest, spaceCnt)
    }

    /** Every row of the distance matrix is the distance row of its id. */
    ghost predicate Measured()
      reads this`spaceidLayout, this`spaceidToPos, this`spaceidToIsdest, this`spaceCnt, this`distanceMatrix
    {
      && Numbered() && |distanceMatrix| == spaceCnt
      && forall i :: 0 <= i < spaceCnt ==> DistanceRow(spaceidLayout, spaceidToPos, distanceMatrix[i], i)
    }

    /**
      `_prepare_spaceid`: numbers the free cells in row-scan order, -1 elsewhere, and sets
      up a space_cnt by space_cnt matrix holding UNREACHABLE everywhere.
    */
    method PrepareSpaceid()
      requires WellFormed(layout)
      modifies this`spaceidLayout, this`spaceCnt, this`spaceidToIsdest, this`spaceidToPos, this`distanceMatrix
      ensures Numbered()
      ensures |distanceMatrix| == spaceCnt && forall i :: 0 <= i < spaceCnt ==> Untouched(distanceMatrix[i], spaceCnt)
    {
      var n;
      spaceidLayout, spaceidToPos, spaceidToIsdest, n := NumberSpaces(layout);
      spaceCnt := n;
      distanceMatrix := seq(n, _ => seq(n, _ => Unreachable));
    }

    /**
      `_prepare_one(x, y, spaceid)`: a breadth-first search of box pushes from cell (x, y);
      the search finds no goal, and the length of the path to each state it explored is
      written into row `spaceid`.
    */
    method PrepareOne(x: nat, y: nat, spaceid: int)
      requires Indexed(spaceidLayout, spaceidToPos)
      requires y < |spaceidLayout| && x < |spaceidLayout[y]| && spaceidLayout[y][x] == spaceid > -1
      requires spaceid < |spaceidToPos| && spaceidToPos[spaceid] == Pos(x, y)
      requires |distanceMatrix| == |spaceidToPos| && Untouched(distanceMatrix[spaceid], |spaceidToPos|)
      modifies this`distanceMatrix
      ensures |distanceMatrix| == |spaceidToPos| && distanceMatrix == old(distanceMatrix)[spaceid := distanceMatrix[spaceid]]
      ensures DistanceRow(spaceidLayout, spaceidToPos, distanceMatrix[spaceid], spaceid)
    {
      var exploredDict := PushSolve(spaceidLayout, x, y);
      WriteExplored(spaceid, exploredDict);
      ExploredRow(spaceidLayout, spaceidToPos, spaceid, exploredDict, distanceMatrix[spaceid]);
    }

    /** The loop of `_prepare_one`: the path length of each explored state goes into row `spaceid`, at that state's id. */
    method WriteExplored(spaceid: nat, exploredDict: map<PushState, seq<Action>>)
      requires spaceid < |distanceMatrix| && RowSoFar(spaceidToPos, exploredDict, exploredDict.Keys, distanceMatrix[spaceid])
      requires forall s :: s in exploredDict ==> 0 <= s.0 < |spaceidToPos| && s == StateOf(spaceidToPos, s.0)
      modifies this`distanceMatrix
      ensures |distanceMatrix| == old(|distanceMatrix|) && distanceMatrix == old(distanceMatrix)[spaceid := distanceMatrix[spaceid]]
      ensures RowSoFar(spaceidToPos, exploredDict, {}, distanceMatrix[spaceid])
    {
      var remaining := exploredDict.Keys;
      while remaining != {}
        invariant remaining <= exploredDict.Keys
        invariant |distanceMatrix| == old(|distanceMatrix|) && distanceMatrix == old(distanceMatrix)[spaceid := distanceMatrix[spaceid]]
        invariant RowSoFar(spaceidToPos, exploredDict, remaining, distanceMatrix[spaceid])
        decreases |remaining|
      {
        var state :| state in remaining;
        var solution := exploredDict[state];
        var toSpaceid := state.0;
        var row := distanceMatrix[spaceid];
        RowSoFarStep(spaceidToPos, exploredDict, remaining, row, state);
        distanceMatrix := distanceMatrix[spaceid := row[toSpaceid := |solution|]];
        remaining := remaining - {state};
      }
    }

    /** `_prepare_distance_matrix`: `_prepare_one` for every cell with an id, in row-scan order. */
    method PrepareDistanceMatrix()
      requires Numbered() && |distanceMatrix| == spaceCnt
      requires forall i :: 0 <= i < spaceCnt ==> Untouched(distanceMatrix[i], spaceCnt)
      modifies this`distanceMatrix
      ensures Measured()
    {
      SpaceIdsIndexed(layout, spaceidLayout, spaceidToPos, spaceidToIsdest, spaceCnt);
      for y := 0 to |spaceidLayout|
        invariant MatrixUpTo(spaceidLayout, spaceidToPos, distanceMatrix, y, 0)
      {
        for x := 0 to |spaceidLayout[y]|
          invariant MatrixUpTo(spaceidLayout, spaceidToPos, distanceMatrix, y, x)
        {
          ghost var before := distanceMatrix;
          var spaceid := spaceidLayout[y][x];
          if spaceid > -1 {
            PrepareOne(x, y, spaceid);
          }
          MatrixStep(layout, spaceidLayout, spaceidToPos, spaceidToIsdest, spaceCnt, before, distanceMatrix, y, x);
        }
        MatrixRowEnd(layout, spaceidLayout, spaceidToPos, spaceidToIsdest, spaceCnt, distanceMatrix, y);
      }
    }

    /** The inner loop of `_prepare_areas`: the destination ids at finite distance from `fromId`, ascending. */
    method ReachableDestsOf(fromId: nat) returns (reachableDests: seq<nat>)
      requires Square(distanceMatrix, spaceidToIsdest) && spaceCnt == |distanceMatrix| && fromId < spaceCnt
      ensures reachableDests == Key(distanceMatrix, spaceidToIsdest, fromId)
    {
      reachableDests := [];
      for toId := 0 to spaceCnt
        invariant reachableDests == ReachableDests(distanceMatrix[fromId], spaceidToIsdest, toId)
      {
        var distance := distanceMatrix[fromId][toId];
        if distance < Unreachable && spaceidToIsdest[toId] {
          reachableDests := reachableDests + [toId];
        }
      }
    }

    /** `from_to_reachable_dests`: each id whose tuple is not empty, with its tuple. */
    method CollectReachableDests() returns (fromToReachableDests: map<nat, seq<nat>>)
      requires Square(distanceMatrix, spaceidToIsdest) && spaceCnt == |distanceMatrix|
      ensures fromToReachableDests == FromTo(distanceMatrix, spaceidToIsdest)
    {
      fromToReachableDests := map[];
      for fromId := 0 to spaceCnt
        invariant fromToReachableDests == FromToBelow(distanceMatrix, spaceidToIsdest, fromId)
      {
        var reachableDests := ReachableDestsOf(fromId);
        if reachableDests != [] {
          fromToReachableDests := fromToReachableDests[fromId := reachableDests];
        }
      }
    }

    /**
      The cell-to-area table: every id is mapped; a cell reaching no destination gets
      DEADLOCK_AREA, any other an area of its own tuple whose count is the tuple's length;
      two cells share an area exactly when their tuples are equal; and an area's positions
      are the cells, in ascending id order, whose tuples its tuple covers.
    */
    ghost predicate AreasOk()
      reads this`distanceMatrix, this`spaceidToIsdest, this`spaceidToPos, this`spaceidToArea, spaceidToArea.Values
    {
      && Square(distanceMatrix, spaceidToIsdest)
      && (forall i :: i in spaceidToArea <==> 0 <= i < |distanceMatrix|)
      && (forall i: nat :: i < |distanceMatrix| ==>
            && spaceidToArea[i].reachableDestCount == |Key(distanceMatrix, spaceidToIsdest, i)|
            && (spaceidToArea[i] == deadlockArea <==> Key(distanceMatrix, spaceidToIsdest, i) == [])
            && (Key(distanceMatrix, spaceidToIsdest, i) != [] ==>
                  spaceidToArea[i].positions ==
                  SubsetCells(FromTo(distanceMatrix, spaceidToIsdest), spaceidToPos, Key(distanceMatrix, spaceidToIsdest, i), |spaceidToPos|)))
      && (forall i: nat, j: nat :: i < |distanceMatrix| && j < |distanceMatrix| ==>
            (spaceidToArea[i] == spaceidToArea[j] <==> Key(distanceMatrix, spaceidToIsdest, i) == Key(distanceMatrix, spaceidToIsdest, j)))
    }

    /**
      `_prepare_areas`: the tuples of reachable destinations, one area per distinct tuple,
      the positions of each area, and the table from every id to its area.
    */
    method PrepareAreas()
      requires Square(distanceMatrix, spaceidToIsdest) && spaceCnt == |distanceMatrix| == |spaceidToPos|
      requires deadlockArea.reachableDestCount == 0
      modifies this`spaceidToArea
      ensures AreasOk()
    {
      var fromToReachableDests := CollectReachableDests();
      var destsToArea, order := MakeAreas(fromToReachableDests, spaceCnt);
      FillPositions(fromToReachableDests, spaceidToPos, destsToArea, order);
      AreaTable(fromToReachableDests, destsToArea);
      AreaTableOk(fromToReachableDests, destsToArea);
    }

    /** The last loop of `_prepare_areas`: each id gets the area of its tuple, or DEADLOCK_AREA when it has none. */
    method AreaTable(fromToReachableDests: map<nat, seq<nat>>, destsToArea: map<seq<nat>, Area>)
      requires forall i :: i in fromToReachableDests ==> fromToReachableDests[i] in destsToArea
      modifies this`spaceidToArea
      ensures forall i :: i in spaceidToArea <==> 0 <= i < spaceCnt
      ensures forall i :: 0 <= i < spaceCnt ==>
        spaceidToArea[i] == (if i in fromToReachableDests then destsToArea[fromToReachableDests[i]] else deadlockArea)
    {
      spaceidToArea := map[];
      for fromId := 0 to spaceCnt
        invariant forall i :: i in spaceidToArea <==> 0 <= i < fromId
        invariant forall i :: 0 <= i < fromId ==>
          spaceidToArea[i] == (if i in fromToReachableDests then destsToArea[fromToReachableDests[i]] else deadlockArea)
      {
        if fromId in fromToReachableDests {
          var reachableDests := fromToReachableDests[fromId];
          var area := destsToArea[reachableDests];
          spaceidToArea := spaceidToArea[fromId := area];
        } else {
          spaceidToArea := spaceidToArea[fromId := deadlockArea];
        }
      }
    }

    /** The passes of `_prepare_areas` together give the table AreasOk describes. */
    lemma AreaTableOk(fromTo: map<nat, seq<nat>>, destsToArea: map<seq<nat>, Area>)
      requires Square(distanceMatrix, spaceidToIsdest) && spaceCnt == |distanceMatrix| == |spaceidToPos|
      requires deadlockArea.reachableDestCount == 0
      requires fromTo == FromTo(distanceMatrix, spaceidToIsdest)
      requires destsToArea.Keys == fromTo.Values
      requires forall k :: k in destsToArea ==>
        && destsToArea[k] != deadlockArea && destsToArea[k].reachableDestCount == |k|
        && destsToArea[k].positions == SubsetCells(fromTo, spaceidToPos, k, |spaceidToPos|)
      requires forall k, k' :: k in destsToArea && k' in destsToArea && k != k' ==> destsToArea[k] != destsToArea[k']
      requires forall i :: i in spaceidToArea <==> 0 <= i < spaceCnt
      requires forall i :: 0 <= i < spaceCnt ==> spaceidToArea[i] == (if i in fromTo then destsToArea[fromTo[i]] else deadlockArea)
      ensures AreasOk()
    {
      forall i: nat | i < spaceCnt && i in fromTo
        ensures fromTo[i] in destsToArea
      {
        assert fromTo[i] in fromTo.Values;
      }
    }

    /** All tables are filled: the state `prepare` leaves behind. */
    ghost predicate Prepared()
      reads this, spaceidToArea.Values
    {
      Measured() && AreasOk() && deadlockArea.reachableDestCount == 0
    }

    /** `prepare`: the three stages in order. */
    method Prepare()
      requires WellFormed(layout) && deadlockArea.reachableDestCount == 0
      modifies this`spaceidLayout, this`spaceCnt, this`spaceidToIsdest, this`spaceidToPos, this`distanceMatrix, this`spaceidToArea
      ensures Prepared()
    {
      PrepareSpaceid();
      PrepareDistanceMatrix();
      PrepareAreas();
    }

    /** A cell of the level that is not a static block: the cells `_id` numbers. */
    predicate HasId(p: Pos)
      reads this`spaceidLayout
    {
      0 <= p.y < |spaceidLayout| && 0 <= p.x < |spaceidLayout[p.y]| && spaceidLayout[p.y][p.x] > -1
    }

    /** `_id(pos)`: the space id of a cell that has one. */
    function Id(p: Pos): (i: nat)
      reads this`spaceidLayout, this`spaceidToPos, this`spaceidToIsdest, this`spaceCnt
      requires Numbered() && HasId(p)
      ensures i < spaceCnt && spaceidToPos[i] == p
    {
      spaceidLayout[p.y][p.x]
    }

    /**
      `get_distance(from_pos, to_pos)`: 0 from a cell to itself; the length of a push path
      (fewer than space_cnt pushes) when the box on `fromPos` can be pushed to `toPos`, and
      UNREACHABLE when it cannot.
    */
    function GetDistance(fromPos: Pos, toPos: Pos): (d: int)
      reads this`spaceidLayout, this`spaceidToPos, this`spaceidToIsdest, this`spaceCnt, this`distanceMatrix
      requires Measured() && HasId(fromPos) && HasId(toPos)
      ensures fromPos == toPos ==> d == 0
      ensures PushReachable(spaceidLayout, spaceidToPos, Id(fromPos), Id(toPos)) ==>
        0 <= d < spaceCnt && exists path :: |path| == d && PushPath(spaceidLayout, spaceidToPos, Id(fromPos), Id(toPos), path)
      ensures !PushReachable(spaceidLayout, spaceidToPos, Id(fromPos), Id(toPos)) ==> d == Unreachable
    {
      distanceMatrix[Id(fromPos)][Id(toPos)]
    }

    /**
      `get_area(pos)`: DEADLOCK_AREA exactly when the cell's tuple of reachable destinations
      is empty; otherwise an area whose count is the length of that tuple.
    */
    function GetArea(p: Pos): (a: Area)
      reads this, spaceidToArea.Values
      requires Prepared() && HasId(p)
      ensures a.reachableDestCount == |Key(distanceMatrix, spaceidToIsdest, Id(p))|
      ensures a == deadlockArea <==> Key(distanceMatrix, spaceidToIsdest, Id(p)) == []
    {
      spaceidToArea[Id(p)]
    }

    /** The set of destination ids to which a box on the cell with id `i` can be pushed. */
    ghost function ReachableDestSet(i: nat): set<nat>
      reads this`spaceidLayout, this`spaceidToPos, this`spaceidToIsdest
      requires i < |spaceidToPos| <= |spaceidToIsdest|
    {
      set d: nat | d < |spaceidToPos| && spaceidToIsdest[d] && PushReachable(spaceidLayout, spaceidToPos, i, d)
    }

    /**
      With fewer cells than UNREACHABLE, the area of id `i` counts exactly the destinations
      its box can be pushed to, and it is DEADLOCK_AREA exactly when it can reach none.
    */
    lemma AreaCountsReachableDests(i: nat)
      requires AreasOk() && |spaceidToPos| == |distanceMatrix| <= Unreachable && i < |distanceMatrix|
      requires DistanceRow(spaceidLayout, spaceidToPos, distanceMatrix[i], i)
      ensures spaceidToArea[i].reachableDestCount == |ReachableDestSet(i)|
      ensures spaceidToArea[i] == deadlockArea <==> ReachableDestSet(i) == {}
    {
      var key := Key(distanceMatrix, spaceidToIsdest, i);
      KeyMeaning(spaceidLayout, spaceidToPos, distanceMatrix, spaceidToIsdest, i);
      ReachableDestsExactly(distanceMatrix[i], spaceidToIsdest, |spaceidToIsdest|);
      assert ReachableDestSet(i) == Elems(key);
      AscendingCard(key);
      if key != [] {
        assert key[0] in ReachableDestSet(i);
      }
    }

    /** Two cells from which the same destinations can be reached share one area. */
    lemma SameDestinationsShareArea(i: nat, j: nat)
      requires AreasOk() && |spaceidToPos| == |distanceMatrix| <= Unreachable && i < |distanceMatrix| && j < |distanceMatrix|
      requires DistanceRow(spaceidLayout, spaceidToPos, distanceMatrix[i], i)
      requires DistanceRow(spaceidLayout, spaceidToPos, distanceMatrix[j], j)
      requires ReachableDestSet(i) == ReachableDestSet(j)
      ensures spaceidToArea[i] == spaceidToArea[j]
    {
      forall d | 0 <= d < |distanceMatrix|
        ensures (distanceMatrix[i][d] < Unreachable && spaceidToIsdest[d]) == (distanceMatrix[j][d] < Unreachable && spaceidToIsdest[d])
      {
        assert d in ReachableDestSet(i) <==> d in ReachableDestSet(j);
      }
      ReachableDestsAgree(distanceMatrix[i], distanceMatrix[j], spaceidToIsdest, |spaceidToIsdest|);
    }

    /**
      The positions of the area of id `i`: the cells whose reachable destinations are among
      its own, `i`'s own cell included.
    */
    lemma AreaPositions(i: nat)
      requires AreasOk() && i < |distanceMatrix| == |spaceidToPos| && Key(distanceMatrix, spaceidToIsdest, i) != []
      ensures spaceidToPos[i] in spaceidToArea[i].positions
      ensures forall q :: q in spaceidToArea[i].positions <==>
        exists j: nat :: j < |distanceMatrix| && Key(distanceMatrix, spaceidToIsdest, j) != [] &&
          SubsetOf(Key(distanceMatrix, spaceidToIsdest, j), Key(distanceMatrix, spaceidToIsdest, i)) && q == spaceidToPos[j]
    {
      var key := Key(distanceMatrix, spaceidToIsdest, i);
      var fromTo := FromTo(distanceMatrix, spaceidToIsdest);
      SubsetCellsExactly(fromTo, spaceidToPos, key, |spaceidToPos|);
      assert i in fromTo;
    }
  }
}
