/**
  Abstract specifications of the three frontier structures search.py takes from util.py,
  whose source is not part of this model: a FIFO queue (util.Queue), a priority queue
  (util.PriorityQueue) and a LIFO stack (util.Stack).

  A frontier is the sequence of its entries in insertion order; each entry remembers its
  priority and its insertion number. The priority queue pops the entry of least priority,
  the earliest inserted among equal priorities; `update` lowers an entry's priority and
  never raises it.
*/
module Util {

  datatype Kind = Fifo | Priority | Lifo

  datatype Entry<T> = Entry(item: T, priority: int, count: nat)

  datatype Frontier<T> = Frontier(kind: Kind, entries: seq<Entry<T>>, pushed: nat)

  /** A new, empty frontier of the given kind (`Strategy()`). */
  function Empty<T>(kind: Kind): (f: Frontier<T>)
    ensures f.kind == kind && f.entries == []
  {
    Frontier(kind, [], 0)
  }

  predicate IsEmpty<T>(f: Frontier<T>) {
    |f.entries| == 0
  }

  function Len<T>(f: Frontier<T>): nat {
    |f.entries|
  }

  /**
    `push(item, priority)`; FIFO and LIFO frontiers keep no priority (their `push` takes
    none) and are given 0.
  */
  function Push<T>(f: Frontier<T>, item: T, priority: int): (r: Frontier<T>)
    ensures r.kind == f.kind && r.entries == f.entries + [Entry(item, priority, f.pushed)]
  {
    Frontier(f.kind, f.entries + [Entry(item, priority, f.pushed)], f.pushed + 1)
  }

  /** Entry `e` comes out of a priority queue no later than `d`. */
  predicate Before<T>(e: Entry<T>, d: Entry<T>) {
    e.priority < d.priority || (e.priority == d.priority && e.count <= d.count)
  }

  /** The position of the entry of least (priority, insertion number) among the first `n`. */
  function MinIndex<T>(entries: seq<Entry<T>>, n: nat): (k: nat)
    requires 0 < n <= |entries|
    ensures k < n && forall j :: 0 <= j < n ==> Before(entries[k], entries[j])
  {
    if n == 1 then 0
    else
      var k := MinIndex(entries, n - 1);
      if Before(entries[k], entries[n - 1]) then k else n - 1
  }

  /** The position `pop` takes its entry from. */
  function PopIndex<T>(f: Frontier<T>): (k: nat)
    requires !IsEmpty(f)
    ensures k < |f.entries|
  {
    match f.kind
    case Fifo => 0
    case Lifo => |f.entries| - 1
    case Priority => MinIndex(f.entries, |f.entries|)
  }

  /** `pop`: the chosen item and the frontier without its entry. */
  function Pop<T>(f: Frontier<T>): (r: (T, Frontier<T>))
    requires !IsEmpty(f)
    ensures var k := PopIndex(f);
      r.0 == f.entries[k].item && r.1.kind == f.kind && r.1.entries == f.entries[..k] + f.entries[k + 1..]
  {
    var k := PopIndex(f);
    (f.entries[k].item, Frontier(f.kind, f.entries[..k] + f.entries[k + 1..], f.pushed))
  }

  /** The first position holding `item`, if any. */
  function Find<T(==)>(entries: seq<Entry<T>>, item: T): (k: int)
    ensures -1 <= k < |entries|
    ensures k >= 0 ==> entries[k].item == item && forall j :: 0 <= j < k ==> entries[j].item != item
    ensures k == -1 ==> forall j :: 0 <= j < |entries| ==> entries[j].item != item
  {
    if entries == [] then -1
    else if entries[|entries| - 1].item == item && Find(entries[..|entries| - 1], item) == -1 then |entries| - 1
    else Find(entries[..|entries| - 1], item)
  }

  /**
    `update(item, priority)` of the priority queue: an entry holding `item` whose priority
    is higher gets the new priority and keeps its insertion number; one whose priority is
    already at most that is left alone; an absent item is pushed.
  */
  function Update<T(==)>(f: Frontier<T>, item: T, priority: int): Frontier<T> {
    var k := Find(f.entries, item);
    if k == -1 then Push(f, item, priority)
    else if f.entries[k].priority <= priority then f
    else Frontier(f.kind, f.entries[k := f.entries[k].(priority := priority)], f.pushed)
  }

  /** A priority queue pops an entry that no other entry precedes. */
  lemma PopIsMinimal<T>(f: Frontier<T>)
    requires !IsEmpty(f) && f.kind == Priority
    ensures forall j :: 0 <= j < |f.entries| ==> Before(f.entries[PopIndex(f)], f.entries[j])
  {
  }

  /**
    Updating an item already present keeps every entry's item and insertion number, lowers
    that item's priority to `priority` when it was higher, and leaves every priority
    unchanged otherwise: priorities never increase.
  */
  lemma UpdateLowersOnly<T>(f: Frontier<T>, item: T, priority: int)
    requires Find(f.entries, item) >= 0
    ensures var u := Update(f, item, priority).entries; var k := Find(f.entries, item);
      && |u| == |f.entries|
      && (forall j :: 0 <= j < |u| ==> u[j].item == f.entries[j].item && u[j].count == f.entries[j].count)
      && (forall j :: 0 <= j < |u| ==> u[j].priority <= f.entries[j].priority)
      && (forall j :: 0 <= j < |u| && j != k ==> u[j].priority == f.entries[j].priority)
      && u[k].priority == if priority < f.entries[k].priority then priority else f.entries[k].priority
  {
  }
}
