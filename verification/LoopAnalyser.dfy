/** Which blocks of a function are entries of loops: a recursive search that looks for a block among its own callers. */
module LoopAnalyser {
  import opened Collections
  import opened BlockGraph

  /** The blocks being visited, the latest first. */
  datatype BlockList = Nil | BlockListItem(prev: BlockList, block: nat)

  predicate Lookup(item: BlockList, block: nat) {
    match item
    case Nil => false
    case BlockListItem(prev, b) => b == block || Lookup(prev, block)
  }

  /** Each block of the list is a target of the one before it. */
  ghost predicate Chain(g: Blocks, item: BlockList) {
    item.BlockListItem? && item.prev.BlockListItem? ==> IsEdge(g, item.prev.block, item.block) && Chain(g, item.prev)
  }

  ghost predicate Follows(g: Blocks, prev: BlockList, block: nat) {
    Chain(g, prev) && (prev.BlockListItem? ==> IsEdge(g, prev.block, block))
  }

  /** A block that gets back to itself. */
  ghost predicate OnCycle(g: Blocks, b: nat) {
    exists y :: IsEdge(g, y, b) && Reaches(g, b, y)
  }

  lemma {:induction false} ListReaches(g: Blocks, item: BlockList, b: nat)
    requires Chain(g, item) && Lookup(item, b)
    ensures item.BlockListItem? && Reaches(g, b, item.block)
  {
    if item.block == b {
      ReachesSelf(g, b);
    } else {
      ListReaches(g, item.prev, b);
      ReachesStep(g, b, item.prev.block, item.block);
    }
  }

  lemma MarkedOnCycle(g: Blocks, prev: BlockList, b: nat)
    requires Follows(g, prev, b) && Lookup(prev, b)
    ensures OnCycle(g, b)
  {
    ListReaches(g, prev, b);
  }

  /** The edges into marked blocks. */
  ghost function Into(g: Blocks, marks: set<nat>): set<Edge> {
    set x, i | 0 <= x < |g| && 0 <= i < |g[x]| && g[x][i] in marks :: (x, g[x][i])
  }

  /** An edge from a completed block leads to a marked block or to one completed before. */
  ghost predicate Falls(g: Blocks, order: seq<nat>, marks: set<nat>) {
    forall x: nat, t: nat :: x in order && IsEdge(g, x, t) ==> t in marks || Before(order, t, x)
  }

  lemma FallsMore(g: Blocks, order: seq<nat>, marks: set<nat>, last: nat)
    requires Falls(g, order, marks) && last < |g| && forall i :: 0 <= i < |g[last]| ==>
      g[last][i] in marks || g[last][i] in order
    ensures Falls(g, order + [last], marks)
  {
    forall x: nat, t: nat | x in order + [last] && IsEdge(g, x, t)
      ensures t in marks || Before(order + [last], t, x)
    {
      if t !in marks {
        if x in order && Before(order, t, x) {
          var i, j :| 0 <= i < j < |order| && order[i] == t && order[j] == x;
          assert (order + [last])[i] == t && (order + [last])[j] == x;
        } else {
          assert x == last;
          var i :| 0 <= i < |order| && order[i] == t;
          assert (order + [last])[i] == t && (order + [last])[|order|] == last;
        }
      }
    }
  }

  /** Visited blocks are completed or in the list. */
  ghost predicate Split(visited: set<nat>, order: seq<nat>, list: BlockList) {
    && (forall x :: x in visited <==> x in order || Lookup(list, x))
    && (forall x :: x in order ==> !Lookup(list, x))
    && Distinct(order)
  }

  ghost function Remaining(g: Blocks, visited: set<nat>): set<nat> {
    set x {:trigger g[x]} | 0 <= x < |g| && x !in visited
  }

  lemma RemainingLess(g: Blocks, visited: set<nat>, more: set<nat>)
    requires visited <= more
    ensures Remaining(g, more) <= Remaining(g, visited)
  {
  }

  /** What the search ends with. */
  ghost predicate Analysed(g: Blocks, entry: nat, marks: set<nat>, order: seq<nat>) {
    && Distinct(order) && entry in order
    && (forall x :: x in order ==> x < |g|)
    && (forall x: nat, t: nat :: x in order && IsEdge(g, x, t) ==> t in order)
    && Falls(g, order, marks)
    && forall b :: b in marks ==> OnCycle(g, b)
  }

  /** All completed blocks can be reached from the entry. */
  ghost predicate ReachedFrom(g: Blocks, entry: nat, order: seq<nat>) {
    forall x :: x in order ==> Reaches(g, entry, x)
  }

  class LoopAnalyser {
    /** The blocks whose first instruction is an entry point. */
    var entryPoints: set<nat>
    var visited: set<nat>
    ghost var order: seq<nat>

    constructor ()
      ensures entryPoints == visited == {} && order == []
    {
      entryPoints, visited, order := {}, {}, [];
    }

    method Visit(g: Blocks, block: nat, prev: BlockList, ghost root: nat)
      requires Valid(g) && block < |g| && Follows(g, prev, block) && Split(visited, order, prev) &&
        Reaches(g, root, block)
      requires Falls(g, order, entryPoints) && entryPoints <= visited && forall x :: x in visited ==> x < |g|
      modifies this
      ensures Split(visited, order, prev) && Falls(g, order, entryPoints) && entryPoints <= visited
      ensures old(visited) <= visited && old(entryPoints) <= entryPoints && forall x :: x in visited ==> x < |g|
      ensures forall x :: x in old(order) ==> x in order
      ensures block in order || (Lookup(prev, block) && block in entryPoints)
      ensures forall b :: b in entryPoints && b !in old(entryPoints) ==> OnCycle(g, b)
      ensures forall x :: x in order && x !in old(order) ==> Reaches(g, root, x)
      decreases Remaining(g, visited)
    {
      if block in visited {
        if Lookup(prev, block) {
          MarkedOnCycle(g, prev, block);
          entryPoints := entryPoints + {block};
        }
        return;
      }
      var item := BlockListItem(prev, block);
      visited := visited + {block};
      assert block in Remaining(g, old(visited)) && block !in Remaining(g, visited);
      for i := 0 to |g[block]|
        invariant Split(visited, order, item) && Falls(g, order, entryPoints) && entryPoints <= visited
        invariant Remaining(g, visited) < Remaining(g, old(visited))
        invariant old(visited) + {block} <= visited && old(entryPoints) <= entryPoints
        invariant forall x :: x in visited ==> x < |g|
        invariant forall x :: x in old(order) ==> x in order
        invariant forall j :: 0 <= j < i ==> g[block][j] in entryPoints || g[block][j] in order
        invariant forall b :: b in entryPoints && b !in old(entryPoints) ==> OnCycle(g, b)
        invariant forall x :: x in order && x !in old(order) ==> Reaches(g, root, x)
      {
        assert IsEdge(g, block, g[block][i]);
        ghost var before := visited;
        ReachesStep(g, root, block, g[block][i]);
        Visit(g, g[block][i], item, root);
        RemainingLess(g, before, visited);
      }
      FallsMore(g, order, entryPoints, block);
      order := order + [block];
    }

    method Init(g: Blocks, entry: nat)
      requires Valid(g) && entry < |g|
      modifies this
      ensures Analysed(g, entry, entryPoints, order) && ReachedFrom(g, entry, order)
    {
      entryPoints, visited, order := {}, {}, [];
      ReachesSelf(g, entry);
      Visit(g, entry, Nil, entry);
      forall x: nat, t: nat | x in order && IsEdge(g, x, t)
        ensures t in order
      {
      }
    }
  }
}
