/** Control-flow graphs as blocks and their targets, and what an order of completion says about their cycles. */
module BlockGraph {
  import opened Collections

  /** The targets of each block. */
  type Blocks = seq<seq<nat>>

  type Edge = (nat, nat)

  ghost predicate Valid(g: Blocks) {
    forall x :: 0 <= x < |g| ==> TargetsWithin(g[x], |g|)
  }

  ghost predicate TargetsWithin(targets: seq<nat>, n: nat) {
    forall i :: 0 <= i < |targets| ==> targets[i] < n
  }

  ghost predicate IsEdge(g: Blocks, x: nat, t: nat) {
    x < |g| && t in g[x]
  }

  /** From block to block along edges. */
  ghost predicate IsPath(g: Blocks, p: seq<nat>) {
    p != [] && forall k :: 0 < k < |p| ==> IsEdge(g, p[k - 1], p[k])
  }

  ghost predicate Connects(g: Blocks, p: seq<nat>, x: nat, t: nat) {
    IsPath(g, p) && p[0] == x && p[|p| - 1] == t
  }

  ghost predicate Reaches(g: Blocks, x: nat, t: nat) {
    exists p :: Connects(g, p, x, t)
  }

  lemma ReachesSelf(g: Blocks, x: nat)
    ensures Reaches(g, x, x)
  {
    assert Connects(g, [x], x, x);
  }

  lemma ReachesStep(g: Blocks, x: nat, y: nat, t: nat)
    requires Reaches(g, x, y) && IsEdge(g, y, t)
    ensures Reaches(g, x, t)
  {
    var p :| Connects(g, p, x, y);
    var q := p + [t];
    assert forall k :: 0 <= k < |p| ==> q[k] == p[k];
    assert Connects(g, q, x, t);
  }

  /** `x` comes before `y` in the order. */
  ghost predicate Before(order: seq<nat>, x: nat, y: nat) {
    exists i, j :: 0 <= i < j < |order| && order[i] == x && order[j] == y
  }

  function Position(order: seq<nat>, x: nat): (r: nat)
    ensures r <= |order| && (x in order ==> r < |order| && order[r] == x)
  {
    if order == [] then 0
    else if x in order[..|order| - 1] then Position(order[..|order| - 1], x)
    else |order| - 1
  }

  lemma BeforeIsLower(order: seq<nat>, x: nat, y: nat)
    requires Distinct(order) && Before(order, x, y)
    ensures x in order && y in order && Position(order, x) < Position(order, y)
  {
    var i, j :| 0 <= i < j < |order| && order[i] == x && order[j] == y;
    assert order[Position(order, x)] == x && order[Position(order, y)] == y;
  }

  /** Every edge leaving a block of the order is cut or leads to a block completed earlier. */
  ghost predicate Descends(g: Blocks, order: seq<nat>, cut: set<Edge>) {
    forall x: nat, t: nat :: x in order && IsEdge(g, x, t) ==> (x, t) in cut || Before(order, t, x)
  }

  /** Along uncut edges the position falls. */
  lemma {:induction false} PathFalls(g: Blocks, order: seq<nat>, cut: set<Edge>, p: seq<nat>, k: nat)
    requires Distinct(order) && Descends(g, order, cut) && IsPath(g, p) && p[0] in order && k < |p|
    requires forall l :: 0 < l < |p| ==> (p[l - 1], p[l]) !in cut
    ensures p[k] in order && (k > 0 ==> Position(order, p[k]) < Position(order, p[0]))
    decreases k
  {
    if k > 0 {
      PathFalls(g, order, cut, p, k - 1);
      assert IsEdge(g, p[k - 1], p[k]);
      BeforeIsLower(order, p[k], p[k - 1]);
    }
  }

  /** Without the cut edges there is no cycle. */
  lemma CutsAllCycles(g: Blocks, order: seq<nat>, cut: set<Edge>, p: seq<nat>)
    requires Distinct(order) && Descends(g, order, cut) && IsPath(g, p) && |p| > 1 && p[0] in order &&
      p[|p| - 1] == p[0]
    ensures exists l :: 0 < l < |p| && (p[l - 1], p[l]) in cut
  {
    if forall l :: 0 < l < |p| ==> (p[l - 1], p[l]) !in cut {
      PathFalls(g, order, cut, p, |p| - 1);
    }
  }

  /** The order has every block that its first-visited one reaches. */
  lemma {:induction false} OrderIsClosed(g: Blocks, order: seq<nat>, p: seq<nat>, k: nat)
    requires IsPath(g, p) && p[0] in order && k < |p|
    requires forall x: nat, t: nat :: x in order && IsEdge(g, x, t) ==> t in order
    ensures p[k] in order
    decreases k
  {
    if k > 0 {
      OrderIsClosed(g, order, p, k - 1);
      assert IsEdge(g, p[k - 1], p[k]);
    }
  }
}
