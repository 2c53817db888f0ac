/**
  The generic graph search of search.py: `GRAPH_SEARCH` over a FIFO or priority frontier,
  with a state-to-node index of the frontier, an explored set, in-place decrease-key and a
  progress hook, and the stack-based `depthFirstSearch`.

  A problem is given by its start state, goal test and successor function. The source's
  `while True` loops end only on finite state spaces; the model asks for a finite ghost
  `universe` of states that holds the start and is closed under successors.
*/
module Search {
  import opened Wrappers
  import opened Util

  /** One triple of `getSuccessors`: (successor, action, stepCost). */
  datatype Succ<S, A> = Succ(state: S, action: A, cost: int)

  /** `SearchProblem`: getStartState, isGoalState and getSuccessors. */
  datatype Problem<!S, A> = Problem(start: S, isGoal: S --> bool, successors: S --> seq<Succ<S, A>>)

  /** `nullHeuristic`, the default heuristic: every state is estimated at 0. */
  function NullHeuristic<S>(s: S): int {
    0
  }

  /** `universe` holds the start state, is closed under successors, and the goal test is defined on it. */
  ghost predicate BoundedBy<S, A>(p: Problem<S, A>, universe: set<S>) {
    && p.start in universe
    && (forall s :: s in universe ==> p.isGoal.requires(s) && p.successors.requires(s))
    && (forall s, i :: s in universe && p.successors.requires(s) && 0 <= i < |p.successors(s)| ==>
          p.successors(s)[i].state in universe)
  }

  /**
    Replaying successor choices from `s`: choice k picks the k-th triple of `getSuccessors`.
    The result is the state reached, the actions taken and the summed step cost.
  */
  ghost function Run<S, A>(p: Problem<S, A>, s: S, choices: seq<nat>): Option<(S, seq<A>, int)>
    decreases |choices|
  {
    if choices == [] then Some((s, [], 0))
    else
      match Run(p, s, choices[..|choices| - 1])
      case None => None
      case Some(r) =>
        var k := choices[|choices| - 1];
        if p.successors.requires(r.0) && k < |p.successors(r.0)| then
          var nx := p.successors(r.0)[k];
          Some((nx.state, r.1 + [nx.action], r.2 + nx.cost))
        else None
  }

  /** `path` is a sequence of actions that leads from `s` to `t` under `getSuccessors`. */
  ghost predicate Reaches<S, A>(p: Problem<S, A>, s: S, path: seq<A>, t: S) {
    exists choices :: Run(p, s, choices).Some? && Run(p, s, choices).value.0 == t && Run(p, s, choices).value.1 == path
  }

  /** A search node `[state, path, cost]`; GRAPH_SEARCH rewrites path and cost in place. */
  class Node<S, A> {
    const state: S
    var path: seq<A>
    var cost: int
    /** The successor choices that produce `path` and `cost` from the start. */
    ghost var choices: seq<nat>

    constructor (state: S, path: seq<A>, cost: int, ghost choices: seq<nat>)
      ensures this.state == state && this.path == path && this.cost == cost && this.choices == choices
    {
      this.state := state;
      this.path := path;
      this.cost := cost;
      this.choices := choices;
    }
  }

  /** A node's path and cost are those of a real walk from the start to its state. */
  ghost predicate NodeOk<S, A>(p: Problem<S, A>, n: Node<S, A>)
    reads n
  {
    Run(p, p.start, n.choices) == Some((n.state, n.path, n.cost))
  }

  ghost function States<S, A>(entries: seq<Entry<Node<S, A>>>): set<S> {
    set k | 0 <= k < |entries| :: entries[k].item.state
  }

  ghost predicate DistinctStates<S, A>(entries: seq<Entry<Node<S, A>>>) {
    forall k, l :: 0 <= k < l < |entries| ==> entries[k].item.state != entries[l].item.state
  }

  lemma StatesAppend<S, A>(entries: seq<Entry<Node<S, A>>>, e: Entry<Node<S, A>>)
    ensures States(entries + [e]) == States(entries) + {e.item.state}
  {
    var es := entries + [e];
    assert es[|entries|] == e;
    forall s | s in States(entries)
      ensures s in States(es)
    {
      var k :| 0 <= k < |entries| && entries[k].item.state == s;
      assert es[k] == entries[k];
    }
  }

  lemma StatesRemove<S, A>(entries: seq<Entry<Node<S, A>>>, k: nat)
    requires k < |entries| && DistinctStates(entries)
    ensures DistinctStates(entries[..k] + entries[k + 1..])
    ensures States(entries[..k] + entries[k + 1..]) == States(entries) - {entries[k].item.state}
  {
    var es := entries[..k] + entries[k + 1..];
    assert forall j :: 0 <= j < |es| ==> es[j] == if j < k then entries[j] else entries[j + 1];
    forall s | s in States(entries) - {entries[k].item.state}
      ensures s in States(es)
    {
      var j :| 0 <= j < |entries| && entries[j].item.state == s;
      if j < k {
        assert es[j] == entries[j];
      } else {
        assert es[j - 1] == entries[j];
      }
    }
  }

  /** Every successor of a state in `from` is in `done` or in `pending`. */
  ghost predicate Covered<S, A>(p: Problem<S, A>, from: set<S>, done: set<S>, pending: set<S>, universe: set<S>)
    requires BoundedBy(p, universe) && from <= universe
  {
    forall s, i :: s in from && 0 <= i < |p.successors(s)| ==>
      p.successors(s)[i].state in done || p.successors(s)[i].state in pending
  }

  lemma CoveredExtend<S, A>(p: Problem<S, A>, universe: set<S>, from: set<S>, done: set<S>, pending: set<S>,
      s: S, done2: set<S>, pending2: set<S>)
    requires BoundedBy(p, universe) && from <= universe && s in universe
    requires Covered(p, from, done, pending, universe) && done + pending <= done2 + pending2
    requires forall j :: 0 <= j < |p.successors(s)| ==> p.successors(s)[j].state in done2 || p.successors(s)[j].state in pending2
    ensures Covered(p, from + {s}, done2, pending2, universe)
  {
  }

  /** A set that holds the start and is closed under successors holds every reachable state. */
  lemma {:induction false} ClosedHoldsRun<S, A>(p: Problem<S, A>, universe: set<S>, closed: set<S>, none: set<S>, choices: seq<nat>)
    requires BoundedBy(p, universe) && closed <= universe && p.start in closed
    requires Covered(p, closed, closed, none, universe) && forall t :: t !in none
    requires Run(p, p.start, choices).Some?
    ensures Run(p, p.start, choices).value.0 in closed
    decreases |choices|
  {
    if choices != [] {
      ClosedHoldsRun(p, universe, closed, none, choices[..|choices| - 1]);
    }
  }

  lemma ClosedHoldsReachable<S, A>(p: Problem<S, A>, universe: set<S>, closed: set<S>, none: set<S>)
    requires BoundedBy(p, universe) && closed <= universe && p.start in closed
    requires Covered(p, closed, closed, none, universe) && forall t :: t !in none
    ensures forall path, t :: Reaches(p, p.start, path, t) ==> t in closed
  {
    forall path, t | Reaches(p, p.start, path, t)
      ensures t in closed
    {
      var choices :| Run(p, p.start, choices).Some? && Run(p, p.start, choices).value.0 == t && Run(p, p.start, choices).value.1 == path;
      ClosedHoldsRun(p, universe, closed, none, choices);
    }
  }

  /** A subset is no larger than its superset. */
  lemma {:induction false} SubsetCard<T>(a: set<T>, b: set<T>)
    requires a <= b
    ensures |a| <= |b|
    decreases |a|
  {
    if a != {} {
      var x :| x in a;
      SubsetCard(a - {x}, b - {x});
    }
  }

  /** One more choice extends a walk by one successor triple. */
  lemma RunExtend<S, A>(p: Problem<S, A>, choices: seq<nat>, i: nat)
    requires Run(p, p.start, choices).Some?
    requires p.successors.requires(Run(p, p.start, choices).value.0)
    requires i < |p.successors(Run(p, p.start, choices).value.0)|
    ensures var r := Run(p, p.start, choices).value; var nx := p.successors(r.0)[i];
      Run(p, p.start, choices + [i]) == Some((nx.state, r.1 + [nx.action], r.2 + nx.cost))
  {
    assert (choices + [i])[..|choices|] == choices;
  }

  /**
    `frontierStateToNode` indexes the frontier: one entry per state, and the index maps each
    state of the frontier to the node of its entry.
  */
  ghost predicate FrontierIndex<S, A>(entries: seq<Entry<Node<S, A>>>, index: map<S, Node<S, A>>) {
    && (forall k :: 0 <= k < |entries| ==> entries[k].item.state in index && index[entries[k].item.state] == entries[k].item)
    && index.Keys == States(entries)
    && DistinctStates(entries)
    && (forall s :: s in index ==> index[s].state == s)
  }

  /**
    Every indexed node belongs to `nodes` and is a real walk from the start whose path is at
    most `bound` long.
  */
  ghost predicate NodesOk<S, A>(p: Problem<S, A>, index: map<S, Node<S, A>>, nodes: set<Node<S, A>>, bound: nat)
    reads nodes
  {
    forall s :: s in index ==> index[s] in nodes && NodeOk(p, index[s]) && |index[s].path| <= bound
  }

  /** Every explored state is no goal and maps to a path that reaches it, shorter than the explored count. */
  ghost predicate ExploredOk<S, A>(p: Problem<S, A>, universe: set<S>, explored: map<S, seq<A>>)
    requires BoundedBy(p, universe) && explored.Keys <= universe
  {
    forall s :: s in explored ==> !p.isGoal(s) && Reaches(p, p.start, explored[s], s) && |explored[s]| < |explored|
  }

  /** Exploring one more state that is no goal, with a path that reaches it. */
  lemma ExploreOne<S, A>(p: Problem<S, A>, universe: set<S>, explored: map<S, seq<A>>, state: S, solution: seq<A>)
    requires BoundedBy(p, universe) && explored.Keys <= universe && state in universe && state !in explored
    requires ExploredOk(p, universe, explored) && !p.isGoal(state)
    requires Reaches(p, p.start, solution, state) && |solution| <= |explored|
    ensures |explored[state := solution]| == |explored| + 1
    ensures ExploredOk(p, universe, explored[state := solution])
  {
    var e := explored[state := solution];
    assert e.Keys == explored.Keys + {state};
    assert |e| == |explored| + 1;
    forall s | s in e
      ensures !p.isGoal(s) && Reaches(p, p.start, e[s], s) && |e[s]| < |e|
    {
      if s != state {
        assert e[s] == explored[s];
      }
    }
  }

  lemma FrontierIndexRemove<S, A>(entries: seq<Entry<Node<S, A>>>, index: map<S, Node<S, A>>, k: nat)
    requires k < |entries| && FrontierIndex(entries, index)
    ensures FrontierIndex(entries[..k] + entries[k + 1..], index - {entries[k].item.state})
  {
    var es := entries[..k] + entries[k + 1..];
    assert forall j :: 0 <= j < |es| ==> es[j] == if j < k then entries[j] else entries[j + 1];
    StatesRemove(entries, k);
  }

  lemma FrontierIndexAppend<S, A>(entries: seq<Entry<Node<S, A>>>, index: map<S, Node<S, A>>, e: Entry<Node<S, A>>)
    requires FrontierIndex(entries, index) && e.item.state !in index
    ensures FrontierIndex(entries + [e], index[e.item.state := e.item])
  {
    StatesAppend(entries, e);
  }

  lemma FrontierIndexSameItems<S, A>(entries: seq<Entry<Node<S, A>>>, entries2: seq<Entry<Node<S, A>>>, index: map<S, Node<S, A>>)
    requires FrontierIndex(entries, index)
    requires |entries2| == |entries| && forall j :: 0 <= j < |entries| ==> entries2[j].item == entries[j].item
    ensures FrontierIndex(entries2, index)
  {
    assert States(entries2) == States(entries);
  }

  /**
    The priority every frontier entry carries: on a priority frontier its node's cost plus
    the heuristic of its state, on any other frontier 0.
  */
  ghost predicate Prioritized<S, A>(kind: Kind, heuristic: S --> int, entries: seq<Entry<Node<S, A>>>, nodes: set<Node<S, A>>)
    reads nodes
  {
    forall k :: 0 <= k < |entries| ==> entries[k].item in nodes && PriorityOf(kind, heuristic, entries[k])
  }

  /** The priority of one entry, as `Prioritized` demands it. */
  ghost predicate PriorityOf<S, A>(kind: Kind, heuristic: S --> int, e: Entry<Node<S, A>>)
    reads e.item`cost
  {
    if kind == Priority then
      heuristic.requires(e.item.state) && e.priority == e.item.cost + heuristic(e.item.state)
    else e.priority == 0
  }

  lemma PrioritizedAppend<S, A>(kind: Kind, heuristic: S --> int, entries: seq<Entry<Node<S, A>>>, nodes: set<Node<S, A>>,
      newNodes: set<Node<S, A>>, e: Entry<Node<S, A>>)
    requires Prioritized(kind, heuristic, entries, nodes) && nodes <= newNodes
    requires e.item in newNodes && PriorityOf(kind, heuristic, e)
    ensures Prioritized(kind, heuristic, entries + [e], newNodes)
  {
    var es := entries + [e];
    assert forall k :: 0 <= k < |entries| ==> es[k] == entries[k];
  }

  lemma PrioritizedRemove<S, A>(kind: Kind, heuristic: S --> int, entries: seq<Entry<Node<S, A>>>, nodes: set<Node<S, A>>, k: nat)
    requires k < |entries| && Prioritized(kind, heuristic, entries, nodes)
    ensures Prioritized(kind, heuristic, entries[..k] + entries[k + 1..], nodes)
  {
    var es := entries[..k] + entries[k + 1..];
    assert forall j :: 0 <= j < |es| ==> es[j] == if j < k then entries[j] else entries[j + 1];
  }

  /**
    On a priority frontier whose entries are `Prioritized`, `pop` takes a node of least cost
    plus heuristic: uniform cost search on the cost alone, A* on the estimate through it.
  */
  lemma PopsLeastEstimate<S, A>(heuristic: S --> int, f: Frontier<Node<S, A>>, nodes: set<Node<S, A>>)
    requires !IsEmpty(f) && f.kind == Priority && Prioritized(Priority, heuristic, f.entries, nodes)
    ensures var n := f.entries[PopIndex(f)].item;
      heuristic.requires(n.state) &&
      forall j :: 0 <= j < |f.entries| ==>
        heuristic.requires(f.entries[j].item.state) &&
        n.cost + heuristic(n.state) <= f.entries[j].item.cost + heuristic(f.entries[j].item.state)
  {
    PopIsMinimal(f);
    assert PriorityOf(Priority, heuristic, f.entries[PopIndex(f)]);
    forall j | 0 <= j < |f.entries|
      ensures PriorityOf(Priority, heuristic, f.entries[j])
    {
    }
  }

  /** A new node for `state`, pushed with the given priority and entered in the index. */
  method AddNode<S, A>(p: Problem<S, A>, heuristic: S --> int, frontier: Frontier<Node<S, A>>, index: map<S, Node<S, A>>,
      ghost nodes: set<Node<S, A>>, bound: nat, state: S, path: seq<A>, cost: int, priority: int, ghost choices: seq<nat>)
    returns (newFrontier: Frontier<Node<S, A>>, newIndex: map<S, Node<S, A>>, ghost newNodes: set<Node<S, A>>)
    requires FrontierIndex(frontier.entries, index) && NodesOk(p, index, nodes, bound) && state !in index
    requires Run(p, p.start, choices) == Some((state, path, cost)) && |path| <= bound
    requires Prioritized(frontier.kind, heuristic, frontier.entries, nodes)
    requires if frontier.kind == Priority then heuristic.requires(state) && priority == cost + heuristic(state) else priority == 0
    ensures state in newIndex && newIndex == index[state := newIndex[state]] && fresh(newIndex[state])
    ensures newIndex.Keys == index.Keys + {state}
    ensures newFrontier == Push(frontier, newIndex[state], priority)
    ensures FrontierIndex(newFrontier.entries, newIndex) && NodesOk(p, newIndex, newNodes, bound)
    ensures Prioritized(frontier.kind, heuristic, newFrontier.entries, newNodes)
    ensures Monotone(index, newIndex, frontier.kind == Priority, {})
    ensures newIndex[state].path == path && newIndex[state].cost == cost
    ensures nodes <= newNodes && forall n :: n in newNodes ==> n in nodes || fresh(n)
  {
    var node := new Node(state, path, cost, choices);
    newFrontier := Push(frontier, node, priority);
    FrontierIndexAppend(frontier.entries, index, newFrontier.entries[|frontier.entries|]);
    assert frontier.entries + [newFrontier.entries[|frontier.entries|]] == newFrontier.entries;
    newIndex := index[state := node];
    newNodes := nodes + {node};
    PrioritizedAppend(frontier.kind, heuristic, frontier.entries, nodes, newNodes, newFrontier.entries[|frontier.entries|]);
  }

  /**
    The indexed node of `state`, on a priority frontier, gets a cheaper path and cost in place,
    and its entry the priority of that cost: `update` lowers it, since the old priority was
    the old, higher cost plus the same heuristic.
  */
  method LowerNode<S, A>(p: Problem<S, A>, heuristic: S --> int, frontier: Frontier<Node<S, A>>, index: map<S, Node<S, A>>,
      ghost nodes: set<Node<S, A>>, bound: nat, solution: seq<A>, cost: int, next: Succ<S, A>, ghost choices: seq<nat>)
    returns (newFrontier: Frontier<Node<S, A>>)
    requires FrontierIndex(frontier.entries, index) && NodesOk(p, index, nodes, bound) && next.state in index
    requires Run(p, p.start, choices) == Some((next.state, solution + [next.action], cost + next.cost))
    requires |solution| < bound
    requires frontier.kind == Priority && cost + next.cost < index[next.state].cost
    requires Prioritized(Priority, heuristic, frontier.entries, nodes)
    requires heuristic.requires(next.state)
    modifies index[next.state]
    ensures index[next.state].path == solution + [next.action] && index[next.state].cost == cost + next.cost
    ensures newFrontier == Update(frontier, index[next.state], cost + next.cost + heuristic(next.state))
    ensures FrontierIndex(newFrontier.entries, index) && NodesOk(p, index, nodes, bound)
    ensures Prioritized(Priority, heuristic, newFrontier.entries, nodes)
    ensures Monotone(index, index, true, {next.state})
    ensures var k := Find(frontier.entries, index[next.state]); 0 <= k && newFrontier.entries[k].priority == cost + next.cost + heuristic(next.state)
  {
    var node := index[next.state];
    var priority := cost + next.cost + heuristic(next.state);
    AboveNewPriority(heuristic, frontier.entries, index, nodes, next.state, priority);
    Rewrite(p, heuristic, frontier.entries, index, nodes, bound, next.state, solution + [next.action], cost + next.cost, choices);
    newFrontier := Update(frontier, node, priority);
    UpdateLowers(heuristic, frontier, index, nodes, next.state, priority);
    SamePriority(heuristic, frontier, node, priority, cost, next);
  }

  /** The lowered priority, written once as a local and once as the sum nextCost + heuristic. */
  lemma SamePriority<S, A>(heuristic: S --> int, f: Frontier<Node<S, A>>, node: Node<S, A>, priority: int, cost: int, next: Succ<S, A>)
    requires heuristic.requires(next.state) && priority == cost + next.cost + heuristic(next.state)
    ensures Update(f, node, priority) == Update(f, node, cost + next.cost + heuristic(next.state))
  {
  }

  /** Before the rewrite, the entry of the node of `state` has a priority above the new one. */
  lemma AboveNewPriority<S, A>(heuristic: S --> int, entries: seq<Entry<Node<S, A>>>, index: map<S, Node<S, A>>,
      nodes: set<Node<S, A>>, state: S, priority: int)
    requires Prioritized(Priority, heuristic, entries, nodes) && state in index && index[state].state == state
    requires heuristic.requires(state) && priority < index[state].cost + heuristic(state)
    ensures forall k :: 0 <= k < |entries| && entries[k].item == index[state] ==> priority < entries[k].priority
  {
    forall k | 0 <= k < |entries| && entries[k].item == index[state]
      ensures priority < entries[k].priority
    {
      assert PriorityOf(Priority, heuristic, entries[k]);
    }
  }

  /**
    After the rewrite, `update` gives the entry of the node of `state` the new priority,
    which fits the node's new cost, and leaves every other entry as it was.
  */
  lemma UpdateLowers<S, A>(heuristic: S --> int, f: Frontier<Node<S, A>>, index: map<S, Node<S, A>>,
      nodes: set<Node<S, A>>, state: S, priority: int)
    requires FrontierIndex(f.entries, index) && state in index && index[state] in nodes
    requires forall k :: 0 <= k < |f.entries| && f.entries[k].item != index[state] ==>
      f.entries[k].item in nodes && PriorityOf(Priority, heuristic, f.entries[k])
    requires heuristic.requires(state) && priority == index[state].cost + heuristic(state)
    requires forall k :: 0 <= k < |f.entries| && f.entries[k].item == index[state] ==> priority < f.entries[k].priority
    ensures FrontierIndex(Update(f, index[state], priority).entries, index)
    ensures Prioritized(Priority, heuristic, Update(f, index[state], priority).entries, nodes)
    ensures var k := Find(f.entries, index[state]); 0 <= k && Update(f, index[state], priority).entries[k].priority == priority
  {
    var node := index[state];
    var j :| 0 <= j < |f.entries| && f.entries[j].item.state == state;
    LowerNodeFind(f.entries, index, state, j);
    UpdateLowersOnly(f, node, priority);
    var u := Update(f, node, priority);
    FrontierIndexSameItems(f.entries, u.entries, index);
    PrioritizedLowered(heuristic, f.entries, u.entries, nodes, j);
  }

  /**
    Entries that differ from a `Prioritized` sequence only in the priority at `j`, where the
    node's new cost plus the heuristic now stands, are `Prioritized`.
  */
  lemma PrioritizedLowered<S, A>(heuristic: S --> int, entries: seq<Entry<Node<S, A>>>, newEntries: seq<Entry<Node<S, A>>>,
      nodes: set<Node<S, A>>, j: nat)
    requires j < |entries| == |newEntries| && entries[j].item in nodes
    requires forall k :: 0 <= k < |entries| && k != j ==> entries[k].item != entries[j].item
    requires forall k :: 0 <= k < |entries| && entries[k].item != entries[j].item ==>
      entries[k].item in nodes && PriorityOf(Priority, heuristic, entries[k])
    requires forall k :: 0 <= k < |newEntries| ==> newEntries[k].item == entries[k].item && newEntries[k].count == entries[k].count
    requires forall k :: 0 <= k < |newEntries| && k != j ==> newEntries[k].priority == entries[k].priority
    requires PriorityOf(Priority, heuristic, newEntries[j])
    ensures Prioritized(Priority, heuristic, newEntries, nodes)
  {
    forall k | 0 <= k < |newEntries|
      ensures newEntries[k].item in nodes && PriorityOf(Priority, heuristic, newEntries[k])
    {
      if k != j {
        assert newEntries[k] == entries[k];
      }
    }
  }

  /**
    The node of `state` takes the new path and cost in place; every other indexed node
    stays as it was, so no node's cost grows and every entry holding another node keeps a
    fitting priority.
  */
  method Rewrite<S, A>(p: Problem<S, A>, heuristic: S --> int, entries: seq<Entry<Node<S, A>>>, index: map<S, Node<S, A>>,
      ghost nodes: set<Node<S, A>>, bound: nat, state: S, path: seq<A>, cost: int, ghost choices: seq<nat>)
    requires NodesOk(p, index, nodes, bound) && state in index && (forall s :: s in index ==> index[s].state == s)
    requires Run(p, p.start, choices) == Some((state, path, cost)) && |path| <= bound && cost <= index[state].cost
    requires Prioritized(Priority, heuristic, entries, nodes)
    modifies index[state]
    ensures NodesOk(p, index, nodes, bound) && Monotone(index, index, true, {state})
    ensures index[state].path == path && index[state].cost == cost
    ensures forall k :: 0 <= k < |entries| && entries[k].item != index[state] ==>
      entries[k].item in nodes && PriorityOf(Priority, heuristic, entries[k])
  {
    var node := index[state];
    node.path := path;
    node.cost := cost;
    node.choices := choices;
    forall s | s in index
      ensures index[s] in nodes && NodeOk(p, index[s]) && |index[s].path| <= bound
      ensures index[s].cost <= old(index[s].cost)
    {
      if s != state {
        assert old(NodeOk(p, index[s]));
      }
    }
    forall k | 0 <= k < |entries| && entries[k].item != node
      ensures entries[k].item in nodes && PriorityOf(Priority, heuristic, entries[k])
    {
      assert old(PriorityOf(Priority, heuristic, entries[k]));
    }
  }

  /** The entry at `j` holding the indexed node of `state` is the first holding that node. */
  lemma LowerNodeFind<S, A>(entries: seq<Entry<Node<S, A>>>, index: map<S, Node<S, A>>, state: S, j: nat)
    requires FrontierIndex(entries, index) && j < |entries| && entries[j].item.state == state && state in index
    ensures entries[j].item == index[state] && Find(entries, index[state]) == j
    ensures forall k :: 0 <= k < |entries| && k != j ==> entries[k].item != index[state]
  {
    var f := Find(entries, index[state]);
    assert entries[f].item.state == entries[j].item.state;
  }

  /**
    Every node indexed before is still indexed, under the same state, and its cost has not
    grown; without a priority frontier, or when its state is not in `touched`, its path and
    cost have not changed at all.
  */
  twostate predicate Monotone<S, A>(index: map<S, Node<S, A>>, new newIndex: map<S, Node<S, A>>, hasPriority: bool,
      new touched: set<S>)
    reads index.Values
  {
    forall s :: s in index ==>
      && s in newIndex && newIndex[s] == index[s]
      && index[s].cost <= old(index[s].cost)
      && (!hasPriority || s !in touched ==> index[s].cost == old(index[s].cost) && index[s].path == old(index[s].path))
  }

  /** No indexed node's path or cost has changed. */
  twostate predicate Unrewritten<S, A>(index: map<S, Node<S, A>>)
    reads index.Values
  {
    forall s :: s in index ==> index[s].cost == old(index[s].cost) && index[s].path == old(index[s].path)
  }

  /**
    What handling the `i`-th successor of `state` keeps, whatever the case: the frontier's
    discipline, the index of its entries, real walks in the nodes, priorities that fit, the
    successor explored or indexed afterwards, no indexed node's cost grown, and the node of
    every other state untouched.
  */
  twostate predicate SuccessorHandled<S, A>(p: Problem<S, A>, hasPriority: bool, heuristic: S --> int, universe: set<S>,
      frontier: Frontier<Node<S, A>>, index: map<S, Node<S, A>>, nodes: set<Node<S, A>>, explored: map<S, seq<A>>,
      next: S, new newFrontier: Frontier<Node<S, A>>, new newIndex: map<S, Node<S, A>>, new newNodes: set<Node<S, A>>)
    reads newNodes, index.Values
  {
    && newFrontier.kind == frontier.kind
    && FrontierIndex(newFrontier.entries, newIndex) && NodesOk(p, newIndex, newNodes, |explored|)
    && Prioritized(frontier.kind, heuristic, newFrontier.entries, newNodes)
    && index.Keys <= newIndex.Keys <= index.Keys + {next} <= universe
    && newIndex.Keys !! explored.Keys
    && (next in explored || next in newIndex)
    && nodes <= newNodes && (forall n :: n in newNodes ==> n in nodes || fresh(n))
    && Monotone(index, newIndex, hasPriority, {next})
  }

  /**
    What one successor triple does to the frontier and the index, case by case as the source
    writes it: explored, new, reached again without priorities, reached again with priorities.
  */
  twostate predicate HandledAsWritten<S, A>(p: Problem<S, A>, hasPriority: bool, heuristic: S --> int,
      frontier: Frontier<Node<S, A>>, index: map<S, Node<S, A>>, explored: map<S, seq<A>>, solution: seq<A>, cost: int,
      next: Succ<S, A>, new newFrontier: Frontier<Node<S, A>>, new newIndex: map<S, Node<S, A>>)
    requires heuristic.requires(next.state)
    reads index.Values, newIndex.Values
  {
    && (next.state in explored ==> newFrontier == frontier && newIndex == index && Unrewritten(index))
    && (next.state !in explored && next.state !in index ==>
        && next.state in newIndex && newIndex[next.state].path == solution + [next.action] && newIndex[next.state].cost == cost + next.cost
        && newFrontier == Push(frontier, newIndex[next.state], if hasPriority then cost + next.cost + heuristic(next.state) else 0)
        && Unrewritten(index))
    && (next.state in index ==> newIndex == index)
    && (next.state in index && !hasPriority ==> newFrontier == frontier && Unrewritten(index))
    && (next.state in index && hasPriority ==>
        if cost + next.cost < old(index[next.state].cost) then
          && index[next.state].path == solution + [next.action] && index[next.state].cost == cost + next.cost
          && newFrontier == Update(frontier, index[next.state], cost + next.cost + heuristic(next.state))
        else newFrontier == frontier && Unrewritten(index))
  }

  /**
    One successor triple of the expanded state: a state neither explored nor in the frontier
    gets a new node, with the parent's path extended by the action and the parent's cost plus
    the step cost; on a priority frontier, a state already in the frontier whose new cost is
    lower has its node's path and cost rewritten in place and its priority lowered; in every
    other case nothing changes.
  */
  method ExpandOne<S(==), A>(p: Problem<S, A>, hasPriority: bool, heuristic: S --> int, ghost universe: set<S>,
      frontier: Frontier<Node<S, A>>, index: map<S, Node<S, A>>, ghost nodes: set<Node<S, A>>, explored: map<S, seq<A>>,
      state: S, solution: seq<A>, cost: int, ghost choices: seq<nat>, i: nat, next: Succ<S, A>)
    returns (newFrontier: Frontier<Node<S, A>>, newIndex: map<S, Node<S, A>>, ghost newNodes: set<Node<S, A>>)
    requires p.successors.requires(state) && i < |p.successors(state)| && next == p.successors(state)[i]
    requires next.state in universe && heuristic.requires(next.state)
    requires Run(p, p.start, choices) == Some((state, solution, cost)) && |solution| < |explored|
    requires hasPriority <==> frontier.kind == Priority
    requires FrontierIndex(frontier.entries, index) && NodesOk(p, index, nodes, |explored|)
    requires Prioritized(frontier.kind, heuristic, frontier.entries, nodes)
    requires index.Keys <= universe && index.Keys !! explored.Keys
    modifies nodes
    ensures SuccessorHandled(p, hasPriority, heuristic, universe, frontier, index, nodes, explored,
      next.state, newFrontier, newIndex, newNodes)
    ensures HandledAsWritten(p, hasPriority, heuristic, frontier, index, explored, solution, cost, next, newFrontier, newIndex)
  {
    if next.state !in explored && next.state !in index {
      newFrontier, newIndex, newNodes :=
        NewSuccessor(p, hasPriority, heuristic, universe, frontier, index, nodes, explored, state, solution, cost, choices, i, next);
    } else if hasPriority && next.state in index {
      newFrontier :=
        ReachedAgain(p, heuristic, universe, frontier, index, nodes, explored, state, solution, cost, choices, i, next);
      newIndex, newNodes := index, nodes;
    } else {
      newFrontier, newIndex, newNodes := frontier, index, nodes;
    }
  }

  /** A successor state neither explored nor in the frontier: a new node with the extended path and cost. */
  method NewSuccessor<S(==), A>(p: Problem<S, A>, hasPriority: bool, heuristic: S --> int, ghost universe: set<S>,
      frontier: Frontier<Node<S, A>>, index: map<S, Node<S, A>>, ghost nodes: set<Node<S, A>>, explored: map<S, seq<A>>,
      state: S, solution: seq<A>, cost: int, ghost choices: seq<nat>, i: nat, next: Succ<S, A>)
    returns (newFrontier: Frontier<Node<S, A>>, newIndex: map<S, Node<S, A>>, ghost newNodes: set<Node<S, A>>)
    requires p.successors.requires(state) && i < |p.successors(state)| && next == p.successors(state)[i]
    requires next.state in universe && heuristic.requires(next.state)
    requires Run(p, p.start, choices) == Some((state, solution, cost)) && |solution| < |explored|
    requires hasPriority <==> frontier.kind == Priority
    requires FrontierIndex(frontier.entries, index) && NodesOk(p, index, nodes, |explored|)
    requires Prioritized(frontier.kind, heuristic, frontier.entries, nodes)
    requires index.Keys <= universe && index.Keys !! explored.Keys
    requires next.state !in explored && next.state !in index
    ensures SuccessorHandled(p, hasPriority, heuristic, universe, frontier, index, nodes, explored,
      next.state, newFrontier, newIndex, newNodes)
    ensures newIndex[next.state].path == solution + [next.action] && newIndex[next.state].cost == cost + next.cost
    ensures newFrontier == Push(frontier, newIndex[next.state], if hasPriority then cost + next.cost + heuristic(next.state) else 0)
  {
    RunExtend(p, choices, i);
    var nextCost := cost + next.cost;
    var priority := if hasPriority then nextCost + heuristic(next.state) else 0;
    newFrontier, newIndex, newNodes :=
      AddNode(p, heuristic, frontier, index, nodes, |explored|, next.state, solution + [next.action], nextCost, priority, choices + [i]);
  }

  /**
    A successor state already in a priority frontier: when the new cost is lower, its node
    takes the extended path and cost and its entry the lower priority; otherwise nothing changes.
  */
  method ReachedAgain<S(==), A>(p: Problem<S, A>, heuristic: S --> int, ghost universe: set<S>,
      frontier: Frontier<Node<S, A>>, index: map<S, Node<S, A>>, ghost nodes: set<Node<S, A>>, explored: map<S, seq<A>>,
      state: S, solution: seq<A>, cost: int, ghost choices: seq<nat>, i: nat, next: Succ<S, A>)
    returns (newFrontier: Frontier<Node<S, A>>)
    requires p.successors.requires(state) && i < |p.successors(state)| && next == p.successors(state)[i]
    requires next.state in universe && heuristic.requires(next.state)
    requires Run(p, p.start, choices) == Some((state, solution, cost)) && |solution| < |explored|
    requires frontier.kind == Priority
    requires FrontierIndex(frontier.entries, index) && NodesOk(p, index, nodes, |explored|)
    requires Prioritized(Priority, heuristic, frontier.entries, nodes)
    requires index.Keys <= universe && index.Keys !! explored.Keys
    requires next.state in index
    modifies index[next.state]
    ensures SuccessorHandled(p, true, heuristic, universe, frontier, index, nodes, explored,
      next.state, newFrontier, index, nodes)
    ensures if cost + next.cost < old(index[next.state].cost) then
        && index[next.state].path == solution + [next.action] && index[next.state].cost == cost + next.cost
        && newFrontier == Update(frontier, index[next.state], cost + next.cost + heuristic(next.state))
      else newFrontier == frontier && unchanged(nodes)
  {
    if cost + next.cost < index[next.state].cost {
      RunExtend(p, choices, i);
      newFrontier :=
        LowerNode(p, heuristic, frontier, index, nodes, |explored|, solution, cost, next, choices + [i]);
    } else {
      newFrontier := frontier;
    }
  }

  /** The states of the first `i` successor triples. */
  ghost function StatesUpTo<S, A>(succs: seq<Succ<S, A>>, i: nat): set<S>
    requires i <= |succs|
  {
    if i == 0 then {} else StatesUpTo(succs, i - 1) + {succs[i - 1].state}
  }

  /** A state is among the first `i` successor triples exactly when one of them names it. */
  lemma {:induction false} StatesUpToExactly<S, A>(succs: seq<Succ<S, A>>, i: nat, s: S)
    requires i <= |succs|
    ensures s in StatesUpTo(succs, i) <==> exists j :: 0 <= j < i && succs[j].state == s
  {
    if i > 0 {
      StatesUpToExactly(succs, i - 1, s);
      if succs[i - 1].state == s {
        assert 0 <= i - 1 < i && succs[i - 1].state == s;
      }
    }
  }

  /**
    The loop over the successors of the expanded state. Only the nodes of successor states
    can be rewritten; every other indexed node keeps its path and cost.
  */
  method ExpandAll<S(==), A>(p: Problem<S, A>, hasPriority: bool, heuristic: S --> int, ghost universe: set<S>,
      frontier: Frontier<Node<S, A>>, index: map<S, Node<S, A>>, ghost nodes: set<Node<S, A>>, explored: map<S, seq<A>>,
      state: S, solution: seq<A>, cost: int, ghost choices: seq<nat>)
    returns (newFrontier: Frontier<Node<S, A>>, newIndex: map<S, Node<S, A>>, ghost newNodes: set<Node<S, A>>)
    requires BoundedBy(p, universe) && (forall s :: s in universe ==> heuristic.requires(s))
    requires state in universe
    requires Run(p, p.start, choices) == Some((state, solution, cost)) && |solution| < |explored|
    requires hasPriority <==> frontier.kind == Priority
    requires FrontierIndex(frontier.entries, index) && NodesOk(p, index, nodes, |explored|)
    requires Prioritized(frontier.kind, heuristic, frontier.entries, nodes)
    requires index.Keys <= universe && index.Keys !! explored.Keys
    modifies nodes
    ensures newFrontier.kind == frontier.kind
    ensures FrontierIndex(newFrontier.entries, newIndex) && NodesOk(p, newIndex, newNodes, |explored|)
    ensures Prioritized(frontier.kind, heuristic, newFrontier.entries, newNodes)
    ensures index.Keys <= newIndex.Keys <= universe && newIndex.Keys !! explored.Keys
    ensures forall j :: 0 <= j < |p.successors(state)| ==> p.successors(state)[j].state in explored || p.successors(state)[j].state in newIndex
    ensures nodes <= newNodes && forall n :: n in newNodes ==> n in nodes || fresh(n)
    ensures Monotone(index, newIndex, hasPriority, StatesUpTo(p.successors(state), |p.successors(state)|))
  {
    var successors := p.successors(state);
    newFrontier, newIndex, newNodes := frontier, index, nodes;
    for i := 0 to |successors|
      invariant newFrontier.kind == frontier.kind
      invariant FrontierIndex(newFrontier.entries, newIndex) && NodesOk(p, newIndex, newNodes, |explored|)
      invariant Prioritized(frontier.kind, heuristic, newFrontier.entries, newNodes)
      invariant Monotone(index, newIndex, hasPriority, StatesUpTo(successors, i))
      invariant index.Keys <= newIndex.Keys <= universe && newIndex.Keys !! explored.Keys
      invariant forall j :: 0 <= j < i ==> successors[j].state in explored || successors[j].state in newIndex
      invariant nodes <= newNodes && forall n :: n in newNodes ==> n in nodes || fresh(n)
    {
      newFrontier, newIndex, newNodes :=
        ExpandOne(p, hasPriority, heuristic, universe, newFrontier, newIndex, newNodes, explored, state, solution, cost, choices,
          i, successors[i]);
    }
  }

  /** The progress hook saw explored sizes 1, 2, 3, ... in order. */
  ghost predicate CountsUp(progress: seq<(int, int)>) {
    forall j :: 0 <= j < |progress| ==> progress[j].0 == j + 1
  }

  lemma CountsUpAppend(progress: seq<(int, int)>, frontierSize: int)
    requires CountsUp(progress)
    ensures CountsUp(progress + [(|progress| + 1, frontierSize)])
  {
    var q := progress + [(|progress| + 1, frontierSize)];
    assert forall j :: 0 <= j < |progress| ==> q[j] == progress[j];
  }

  /**
    `frontier.pop()` followed by `del frontierStateToNode[state]`: the node the frontier
    discipline chooses leaves both the frontier and the index.
  */
  method PopNode<S, A>(p: Problem<S, A>, frontier: Frontier<Node<S, A>>, index: map<S, Node<S, A>>,
      ghost nodes: set<Node<S, A>>, bound: nat)
    returns (state: S, path: seq<A>, cost: int, ghost choices: seq<nat>,
      newFrontier: Frontier<Node<S, A>>, newIndex: map<S, Node<S, A>>)
    requires !IsEmpty(frontier) && FrontierIndex(frontier.entries, index) && NodesOk(p, index, nodes, bound)
    ensures var node := frontier.entries[PopIndex(frontier)].item;
      state == node.state && path == node.path && cost == node.cost && newFrontier == Pop(frontier).1
    ensures state in index && newIndex == index - {state} && index.Keys == newIndex.Keys + {state}
    ensures FrontierIndex(newFrontier.entries, newIndex) && NodesOk(p, newIndex, nodes, bound)
    ensures Run(p, p.start, choices) == Some((state, path, cost)) && |path| <= bound
  {
    ghost var k := PopIndex(frontier);
    FrontierIndexRemove(frontier.entries, index, k);
    var (popped, rest) := Pop(frontier);
    newFrontier := rest;
    state, path, cost := popped.state, popped.path, popped.cost;
    assert index[state] == popped;
    choices := popped.choices;
    newIndex := index - {state};
  }

  /** What GRAPH_SEARCH keeps true at the head of its loop. */
  ghost predicate SearchInv<S, A>(p: Problem<S, A>, universe: set<S>, kind: Kind, heuristic: S --> int,
      frontier: Frontier<Node<S, A>>, index: map<S, Node<S, A>>, nodes: set<Node<S, A>>, explored: map<S, seq<A>>,
      progress: seq<(int, int)>)
    reads nodes
    requires BoundedBy(p, universe)
  {
    && frontier.kind == kind
    && FrontierIndex(frontier.entries, index)
    && Prioritized(kind, heuristic, frontier.entries, nodes)
    && NodesOk(p, index, nodes, |explored|)
    && index.Keys <= universe && explored.Keys <= universe
    && index.Keys !! explored.Keys
    && ExploredOk(p, universe, explored)
    && Covered(p, explored.Keys, explored.Keys, index.Keys, universe)
    && |explored| <= |universe|
    && |progress| == |explored| && CountsUp(progress)
    && (explored == map[] ==> index.Keys == {p.start})
    && (explored != map[] ==> p.start in explored && explored[p.start] == [])
  }

  /**
    The expansion of a popped state that is no goal: it joins the explored map with its path,
    the progress hook sees the new explored size and the frontier size, and then each of its
    successors is handled in order.
  */
  method ExpandState<S(==), A>(p: Problem<S, A>, kind: Kind, heuristic: S --> int, ghost universe: set<S>,
      frontier: Frontier<Node<S, A>>, index: map<S, Node<S, A>>, ghost nodes: set<Node<S, A>>, explored: map<S, seq<A>>,
      progress: seq<(int, int)>, ghost indexBefore: set<S>, state: S, solution: seq<A>, cost: int, ghost choices: seq<nat>)
    returns (newFrontier: Frontier<Node<S, A>>, newIndex: map<S, Node<S, A>>, ghost newNodes: set<Node<S, A>>,
      newExplored: map<S, seq<A>>, newProgress: seq<(int, int)>)
    requires BoundedBy(p, universe) && (forall s :: s in universe ==> heuristic.requires(s))
    requires frontier.kind == kind
    requires FrontierIndex(frontier.entries, index) && NodesOk(p, index, nodes, |explored|)
    requires Prioritized(kind, heuristic, frontier.entries, nodes)
    requires index.Keys <= universe && explored.Keys <= universe && state in universe
    requires state !in index && indexBefore == index.Keys + {state} && indexBefore !! explored.Keys
    requires ExploredOk(p, universe, explored) && Covered(p, explored.Keys, explored.Keys, indexBefore, universe)
    requires |progress| == |explored| && CountsUp(progress)
    requires explored == map[] ==> state == p.start
    requires explored != map[] ==> p.start in explored && explored[p.start] == []
    requires Run(p, p.start, choices) == Some((state, solution, cost)) && |solution| <= |explored|
    requires !p.isGoal(state)
    modifies nodes
    ensures newExplored == explored[state := solution] && |newExplored| == |explored| + 1
    ensures newProgress == progress + [(|newExplored|, Len(frontier))]
    ensures SearchInv(p, universe, kind, heuristic, newFrontier, newIndex, newNodes, newExplored, newProgress)
    ensures nodes <= newNodes && forall n :: n in newNodes ==> n in nodes || fresh(n)
    ensures Monotone(index, newIndex, kind == Priority, StatesUpTo(p.successors(state), |p.successors(state)|))
  {
    assert Reaches(p, p.start, solution, state) by {
      assert Run(p, p.start, choices).value.0 == state;
    }
    ExploreOne(p, universe, explored, state, solution);
    newExplored := explored[state := solution];
    CountsUpAppend(progress, Len(frontier));
    newProgress := progress + [(|newExplored|, Len(frontier))];
    assert NodesOk(p, index, nodes, |newExplored|);
    newFrontier, newIndex, newNodes :=
      ExpandAll(p, kind == Priority, heuristic, universe, frontier, index, nodes, newExplored, state, solution, cost, choices);
    CoveredExtend(p, universe, explored.Keys, explored.Keys, indexBefore, state, newExplored.Keys, newIndex.Keys);
    SubsetCard(newExplored.Keys, universe);
  }

  /** The frontier holding only the start node `[start, [], 0]`, and its index. */
  method StartSearch<S(==), A>(p: Problem<S, A>, kind: Kind, heuristic: S --> int, ghost universe: set<S>)
    returns (frontier: Frontier<Node<S, A>>, frontierStateToNode: map<S, Node<S, A>>, ghost nodes: set<Node<S, A>>)
    requires BoundedBy(p, universe) && (forall s :: s in universe ==> heuristic.requires(s))
    ensures SearchInv(p, universe, kind, heuristic, frontier, frontierStateToNode, nodes, map[], [])
    ensures forall n :: n in nodes ==> fresh(n)
  {
    var hasPriority := kind == Priority;
    frontier := Empty(kind);
    var state := p.start;
    var cost := 0;
    var node := new Node(state, [], cost, []);
    if hasPriority {
      frontier := Push(frontier, node, cost + heuristic(state));
    } else {
      frontier := Push(frontier, node, 0);
    }
    frontierStateToNode := map[state := node];
    nodes := {node};
    FrontierIndexAppend([], map[], frontier.entries[0]);
    PrioritizedAppend(kind, heuristic, [], {}, nodes, frontier.entries[0]);
  }

  /**
    One turn of the GRAPH_SEARCH loop on a non-empty frontier: pop a node; if its state is a
    goal, report its path (`goal`); otherwise expand it.
  */
  method SearchStep<S(==), A>(p: Problem<S, A>, kind: Kind, heuristic: S --> int, ghost universe: set<S>,
      frontier: Frontier<Node<S, A>>, index: map<S, Node<S, A>>, ghost nodes: set<Node<S, A>>,
      explored: map<S, seq<A>>, progress: seq<(int, int)>)
    returns (goal: bool, solution: seq<A>, state: S, newFrontier: Frontier<Node<S, A>>, newIndex: map<S, Node<S, A>>,
      ghost newNodes: set<Node<S, A>>, newExplored: map<S, seq<A>>, newProgress: seq<(int, int)>)
    requires BoundedBy(p, universe) && (forall s :: s in universe ==> heuristic.requires(s))
    requires SearchInv(p, universe, kind, heuristic, frontier, index, nodes, explored, progress) && !IsEmpty(frontier)
    modifies nodes
    ensures goal ==> state in universe && p.isGoal(state) && state !in explored && Reaches(p, p.start, solution, state)
    ensures goal ==> newExplored == explored && newProgress == progress
    ensures goal && explored == map[] ==> state == p.start && solution == []
    ensures !goal ==> SearchInv(p, universe, kind, heuristic, newFrontier, newIndex, newNodes, newExplored, newProgress)
    ensures !goal ==> |newExplored| == |explored| + 1
    ensures nodes <= newNodes && forall n :: n in newNodes ==> n in nodes || fresh(n)
    ensures kind == Priority ==> var n := frontier.entries[PopIndex(frontier)].item;
      state == n.state &&
      forall j :: 0 <= j < |frontier.entries| ==>
        old(n.cost) + heuristic(n.state) <= old(frontier.entries[j].item.cost) + heuristic(frontier.entries[j].item.state)
    ensures state in universe && p.successors.requires(state)
    ensures !goal ==> Monotone(index - {state}, newIndex, kind == Priority, StatesUpTo(p.successors(state), |p.successors(state)|))
  {
    ghost var indexBefore := index.Keys;
    ghost var popChoices;
    var cost;
    if kind == Priority {
      PopsLeastEstimate(heuristic, frontier, nodes);
    }
    PrioritizedRemove(kind, heuristic, frontier.entries, nodes, PopIndex(frontier));
    state, solution, cost, popChoices, newFrontier, newIndex := PopNode(p, frontier, index, nodes, |explored|);
    newNodes, newExplored, newProgress := nodes, explored, progress;
    goal := p.isGoal(state);
    if goal {
      assert Run(p, p.start, popChoices).value.0 == state;
      return;
    }
    newFrontier, newIndex, newNodes, newExplored, newProgress :=
      ExpandState(p, kind, heuristic, universe, newFrontier, newIndex, nodes, explored, progress, indexBefore,
        state, solution, cost, popChoices);
  }

  /**
    GRAPH_SEARCH. The result is a path of actions from the start to a goal state, found when
    that state is popped; or, once the frontier is empty, the empty path together with an
    explored map that holds every state reachable from the start (so no goal is reachable).
    Every explored state maps to a path that reaches it, and `progress` records the
    arguments of the progress hook: it is called once per expansion, after the state joins
    the explored set, whose size then grows by exactly one, so no state is expanded twice.
  */
  method GraphSearch<S(==), A>(p: Problem<S, A>, kind: Kind, heuristic: S --> int, ghost universe: set<S>)
    returns (solution: seq<A>, explored: map<S, seq<A>>, progress: seq<(int, int)>)
    requires BoundedBy(p, universe)
    requires forall s :: s in universe ==> heuristic.requires(s)
    ensures explored.Keys <= universe
    ensures forall s :: s in explored ==> !p.isGoal(s) && Reaches(p, p.start, explored[s], s) && |explored[s]| < |explored|
    ensures |progress| == |explored| && forall j :: 0 <= j < |progress| ==> progress[j].0 == j + 1
    ensures p.isGoal(p.start) ==> solution == [] && explored == map[]
    ensures !p.isGoal(p.start) ==> p.start in explored && explored[p.start] == []
    ensures || (exists t :: t in universe && p.isGoal(t) && t !in explored && Reaches(p, p.start, solution, t))
            || (solution == [] && forall path, t :: Reaches(p, p.start, path, t) ==> t in explored)
  {
    var frontier, frontierStateToNode, nodes := StartSearch(p, kind, heuristic, universe);
    explored := map[];
    progress := [];

    while true
      invariant SearchInv(p, universe, kind, heuristic, frontier, frontierStateToNode, nodes, explored, progress)
      invariant forall n :: n in nodes ==> fresh(n)
      decreases |universe| - |explored|
    {
      if IsEmpty(frontier) {
        ClosedHoldsReachable(p, universe, explored.Keys, frontierStateToNode.Keys);
        return [], explored, progress;
      }
      var goal, state;
      goal, solution, state, frontier, frontierStateToNode, nodes, explored, progress :=
        SearchStep(p, kind, heuristic, universe, frontier, frontierStateToNode, nodes, explored, progress);
      if goal {
        return solution, explored, progress;
      }
    }
  }

  /**
    breadthFirstSearch (`bfs`): GRAPH_SEARCH with a FIFO queue. It returns the explored map
    whose size is the count the source returns.
  */
  method BreadthFirstSearch<S(==), A>(p: Problem<S, A>, ghost universe: set<S>)
    returns (solution: seq<A>, explored: map<S, seq<A>>)
    requires BoundedBy(p, universe)
    ensures explored.Keys <= universe
    ensures forall s :: s in explored ==> !p.isGoal(s) && Reaches(p, p.start, explored[s], s) && |explored[s]| < |explored|
    ensures p.isGoal(p.start) ==> solution == [] && explored == map[]
    ensures !p.isGoal(p.start) ==> p.start in explored && explored[p.start] == []
    ensures || (exists t :: t in universe && p.isGoal(t) && t !in explored && Reaches(p, p.start, solution, t))
            || (solution == [] && forall path, t :: Reaches(p, p.start, path, t) ==> t in explored)
    ensures (forall t :: t in universe ==> !p.isGoal(t)) ==>
      solution == [] && forall path, t :: Reaches(p, p.start, path, t) ==> t in explored
  {
    var progress;
    solution, explored, progress := GraphSearch(p, Fifo, NullHeuristic, universe);
  }

  /** uniformCostSearch (`ucs`): GRAPH_SEARCH with a priority queue and the null heuristic. */
  method UniformCostSearch<S(==), A>(p: Problem<S, A>, ghost universe: set<S>)
    returns (solution: seq<A>, explored: map<S, seq<A>>)
    requires BoundedBy(p, universe)
    ensures explored.Keys <= universe
    ensures forall s :: s in explored ==> !p.isGoal(s) && Reaches(p, p.start, explored[s], s) && |explored[s]| < |explored|
    ensures p.isGoal(p.start) ==> solution == [] && explored == map[]
    ensures !p.isGoal(p.start) ==> p.start in explored && explored[p.start] == []
    ensures || (exists t :: t in universe && p.isGoal(t) && t !in explored && Reaches(p, p.start, solution, t))
            || (solution == [] && forall path, t :: Reaches(p, p.start, path, t) ==> t in explored)
  {
    var progress;
    solution, explored, progress := GraphSearch(p, Priority, NullHeuristic, universe);
  }

  /** aStarSearch (`astar`): GRAPH_SEARCH with a priority queue ordered by cost plus heuristic. */
  method AStarSearch<S(==), A>(p: Problem<S, A>, heuristic: S --> int, ghost universe: set<S>)
    returns (solution: seq<A>, explored: map<S, seq<A>>, progress: seq<(int, int)>)
    requires BoundedBy(p, universe) && forall s :: s in universe ==> heuristic.requires(s)
    ensures explored.Keys <= universe
    ensures forall s :: s in explored ==> !p.isGoal(s) && Reaches(p, p.start, explored[s], s) && |explored[s]| < |explored|
    ensures |progress| == |explored| && forall j :: 0 <= j < |progress| ==> progress[j].0 == j + 1
    ensures p.isGoal(p.start) ==> solution == [] && explored == map[]
    ensures !p.isGoal(p.start) ==> p.start in explored && explored[p.start] == []
    ensures || (exists t :: t in universe && p.isGoal(t) && t !in explored && Reaches(p, p.start, solution, t))
            || (solution == [] && forall path, t :: Reaches(p, p.start, path, t) ==> t in explored)
  {
    solution, explored, progress := GraphSearch(p, Priority, heuristic, universe);
  }

  ghost function StackStates<S, A>(entries: seq<Entry<(S, seq<A>)>>): set<S> {
    set k | 0 <= k < |entries| :: entries[k].item.0
  }

  /** Each stack entry is a real walk from the start, replayed by its trail of choices. */
  ghost predicate StackOk<S, A>(p: Problem<S, A>, universe: set<S>, entries: seq<Entry<(S, seq<A>)>>, trails: seq<seq<nat>>) {
    && |trails| == |entries|
    && forall k :: 0 <= k < |entries| ==>
         entries[k].item.0 in universe
         && Run(p, p.start, trails[k]).Some?
         && Run(p, p.start, trails[k]).value.0 == entries[k].item.0
         && Run(p, p.start, trails[k]).value.1 == entries[k].item.1
  }

  /** The number of stack entries whose state is already explored. */
  ghost function ExploredEntries<S, A>(entries: seq<Entry<(S, seq<A>)>>, explored: set<S>): nat
    decreases |entries|
  {
    if entries == [] then 0
    else ExploredEntries(entries[..|entries| - 1], explored) + (if entries[|entries| - 1].item.0 in explored then 1 else 0)
  }

  lemma StackPush<S, A>(p: Problem<S, A>, universe: set<S>, entries: seq<Entry<(S, seq<A>)>>, trails: seq<seq<nat>>,
      e: Entry<(S, seq<A>)>, trail: seq<nat>, explored: set<S>)
    requires StackOk(p, universe, entries, trails) && e.item.0 !in explored && e.item.0 in universe
    requires Run(p, p.start, trail).Some? && Run(p, p.start, trail).value.0 == e.item.0 && Run(p, p.start, trail).value.1 == e.item.1
    ensures StackOk(p, universe, entries + [e], trails + [trail])
    ensures ExploredEntries(entries + [e], explored) == ExploredEntries(entries, explored)
    ensures StackStates(entries + [e]) == StackStates(entries) + {e.item.0}
  {
    var es := entries + [e];
    assert es[..|es| - 1] == entries;
    assert es[|entries|] == e;
    forall s | s in StackStates(entries)
      ensures s in StackStates(es)
    {
      var k :| 0 <= k < |entries| && entries[k].item.0 == s;
      assert es[k] == entries[k];
    }
  }

  lemma StackPop<S, A>(p: Problem<S, A>, universe: set<S>, entries: seq<Entry<(S, seq<A>)>>, trails: seq<seq<nat>>)
    requires entries != [] && StackOk(p, universe, entries, trails)
    ensures StackOk(p, universe, entries[..|entries| - 1], trails[..|trails| - 1])
    ensures StackStates(entries) == StackStates(entries[..|entries| - 1]) + {entries[|entries| - 1].item.0}
  {
    var rest := entries[..|entries| - 1];
    forall s | s in StackStates(entries)
      ensures s in StackStates(rest) + {entries[|entries| - 1].item.0}
    {
      var k :| 0 <= k < |entries| && entries[k].item.0 == s;
      if k < |rest| {
        assert rest[k] == entries[k];
      }
    }
  }

  /** What depthFirstSearch keeps true at the head of its loop. */
  ghost predicate DfsInv<S, A>(p: Problem<S, A>, universe: set<S>, frontier: Frontier<(S, seq<A>)>,
      trails: seq<seq<nat>>, exploredSet: set<S>)
    requires BoundedBy(p, universe)
  {
    && frontier.kind == Lifo
    && StackOk(p, universe, frontier.entries, trails)
    && exploredSet <= universe
    && (forall s :: s in exploredSet ==> !p.isGoal(s))
    && Covered(p, exploredSet, exploredSet, StackStates(frontier.entries), universe)
    && |exploredSet| <= |universe|
    && (p.start in exploredSet || p.start in StackStates(frontier.entries))
  }

  /** Pushing one successor `[next, nextPath]` unless `next` is explored. */
  method DfsPush<S(==), A>(p: Problem<S, A>, ghost universe: set<S>, frontier: Frontier<(S, seq<A>)>,
      ghost trails: seq<seq<nat>>, exploredSet: set<S>, next: S, nextPath: seq<A>, ghost nextTrail: seq<nat>)
    returns (newFrontier: Frontier<(S, seq<A>)>, ghost newTrails: seq<seq<nat>>)
    requires frontier.kind == Lifo && StackOk(p, universe, frontier.entries, trails) && next in universe
    requires Run(p, p.start, nextTrail).Some? && Run(p, p.start, nextTrail).value.0 == next && Run(p, p.start, nextTrail).value.1 == nextPath
    ensures newFrontier.kind == Lifo && StackOk(p, universe, newFrontier.entries, newTrails)
    ensures ExploredEntries(newFrontier.entries, exploredSet) == ExploredEntries(frontier.entries, exploredSet)
    ensures StackStates(frontier.entries) <= StackStates(newFrontier.entries)
    ensures next in exploredSet || next in StackStates(newFrontier.entries)
  {
    newFrontier, newTrails := frontier, trails;
    if next !in exploredSet {
      var e := Entry((next, nextPath), 0, frontier.pushed);
      StackPush(p, universe, frontier.entries, trails, e, nextTrail, exploredSet);
      newFrontier := Push(frontier, (next, nextPath), 0);
      newTrails := trails + [nextTrail];
    }
  }

  /** Pushing `[nextState, path + [action]]` for every successor that is not explored. */
  method DfsExpand<S(==), A>(p: Problem<S, A>, ghost universe: set<S>, frontier: Frontier<(S, seq<A>)>,
      ghost trails: seq<seq<nat>>, exploredSet: set<S>, state: S, path: seq<A>, ghost trail: seq<nat>)
    returns (newFrontier: Frontier<(S, seq<A>)>, ghost newTrails: seq<seq<nat>>)
    requires BoundedBy(p, universe) && state in universe && frontier.kind == Lifo
    requires StackOk(p, universe, frontier.entries, trails)
    requires Run(p, p.start, trail).Some? && Run(p, p.start, trail).value.0 == state && Run(p, p.start, trail).value.1 == path
    ensures newFrontier.kind == Lifo && StackOk(p, universe, newFrontier.entries, newTrails)
    ensures ExploredEntries(newFrontier.entries, exploredSet) == ExploredEntries(frontier.entries, exploredSet)
    ensures StackStates(frontier.entries) <= StackStates(newFrontier.entries)
    ensures forall j :: 0 <= j < |p.successors(state)| ==>
      p.successors(state)[j].state in exploredSet || p.successors(state)[j].state in StackStates(newFrontier.entries)
  {
    newFrontier, newTrails := frontier, trails;
    var successors := p.successors(state);
    for i := 0 to |successors|
      invariant newFrontier.kind == Lifo && StackOk(p, universe, newFrontier.entries, newTrails)
      invariant ExploredEntries(newFrontier.entries, exploredSet) == ExploredEntries(frontier.entries, exploredSet)
      invariant StackStates(frontier.entries) <= StackStates(newFrontier.entries)
      invariant forall j :: 0 <= j < i ==> successors[j].state in exploredSet || successors[j].state in StackStates(newFrontier.entries)
    {
      var next := successors[i];
      RunExtend(p, trail, i);
      ghost var before := StackStates(newFrontier.entries);
      newFrontier, newTrails := DfsPush(p, universe, newFrontier, newTrails, exploredSet, next.state, path + [next.action], trail + [i]);
      assert before <= StackStates(newFrontier.entries);
    }
  }

  /**
    One turn of the depthFirstSearch loop on a non-empty stack: pop the top node; if its state
    is a goal, report its path (`goal`); otherwise mark it explored and push its successors.
    Either the explored set grows, or it stays and the stack holds one explored entry fewer.
  */
  method DfsStep<S(==), A>(p: Problem<S, A>, ghost universe: set<S>, frontier: Frontier<(S, seq<A>)>,
      ghost trails: seq<seq<nat>>, exploredSet: set<S>)
    returns (goal: bool, solution: seq<A>, state: S, newFrontier: Frontier<(S, seq<A>)>, ghost newTrails: seq<seq<nat>>,
      newExplored: set<S>)
    requires BoundedBy(p, universe) && DfsInv(p, universe, frontier, trails, exploredSet) && !IsEmpty(frontier)
    ensures goal ==> state in universe && p.isGoal(state) && Reaches(p, p.start, solution, state)
    ensures !goal ==> DfsInv(p, universe, newFrontier, newTrails, newExplored)
    ensures !goal ==> newExplored == exploredSet + {state}
    ensures !goal ==> (|newExplored| > |exploredSet| ||
      (newExplored == exploredSet && ExploredEntries(newFrontier.entries, newExplored) < ExploredEntries(frontier.entries, exploredSet)))
  {
    ghost var entries := frontier.entries;
    ghost var popTrail := trails[|trails| - 1];
    StackPop(p, universe, entries, trails);
    var (top, rest) := Pop(frontier);
    newFrontier := rest;
    newTrails := trails[..|trails| - 1];
    state, solution := top.0, top.1;
    newExplored := exploredSet;
    goal := p.isGoal(state);
    if goal {
      return;
    }
    assert rest.entries == entries[..|entries| - 1];
    assert entries[|entries| - 1].item.0 == state;
    newExplored := exploredSet + {state};
    SubsetCard(newExplored, universe);
    if state in exploredSet {
      assert newExplored == exploredSet;
      assert ExploredEntries(entries, exploredSet) == ExploredEntries(rest.entries, exploredSet) + 1;
    } else {
      assert |newExplored| == |exploredSet| + 1;
    }
    newFrontier, newTrails := DfsExpand(p, universe, newFrontier, newTrails, newExplored, state, solution, popTrail);
    CoveredExtend(p, universe, exploredSet, exploredSet, StackStates(entries), state, newExplored, StackStates(newFrontier.entries));
  }

  /**
    depthFirstSearch: a LIFO frontier of `[state, path]` nodes that is not deduplicated.
    The result is a path to a goal state, or the empty path once the stack is empty, and
    then no goal state is reachable from the start.
  */
  method DepthFirstSearch<S(==), A>(p: Problem<S, A>, ghost universe: set<S>) returns (solution: seq<A>)
    requires BoundedBy(p, universe)
    ensures || (exists t :: t in universe && p.isGoal(t) && Reaches(p, p.start, solution, t))
            || (solution == [] && forall path, t :: Reaches(p, p.start, path, t) ==> t in universe && !p.isGoal(t))
  {
    var frontier: Frontier<(S, seq<A>)> := Empty(Lifo);
    frontier := Push(frontier, (p.start, []), 0);
    ghost var trails: seq<seq<nat>> := [[]];
    var exploredSet: set<S> := {};
    StackPush(p, universe, [], [], frontier.entries[0], [], exploredSet);

    while true
      invariant DfsInv(p, universe, frontier, trails, exploredSet)
      decreases |universe| - |exploredSet|, ExploredEntries(frontier.entries, exploredSet)
    {
      if IsEmpty(frontier) {
        ClosedHoldsReachable(p, universe, exploredSet, StackStates(frontier.entries));
        return [];
      }
      var goal, state;
      goal, solution, state, frontier, trails, exploredSet := DfsStep(p, universe, frontier, trails, exploredSet);
      if goal {
        return solution;
      }
    }
  }
}
