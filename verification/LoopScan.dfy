/** The search for edges that close loops: depth first, with a stack of its own. */
module LoopScan {
  import opened Collections
  import opened BlockGraph

  /** A block on the stack, and which of its targets is next. */
  datatype DfsItem = DfsItem(bb: nat, target: nat)

  /** Where edges to `b` come from: the block, and which of its targets it is. */
  function Inbound(g: Blocks, b: nat): set<(nat, nat)> {
    set x, i | 0 <= x < |g| && 0 <= i < |g[x]| && g[x][i] == b :: (x, i)
  }

  /** Blocks not worth tracking on the path: those with one way in at most, which for the entry means none. */
  predicate Tracked(g: Blocks, entry: nat, b: nat) {
    if b == entry then Inbound(g, b) != {} else |Inbound(g, b)| > 1
  }

  ghost predicate OnStack(stack: seq<DfsItem>, b: nat) {
    exists j :: 0 <= j < |stack| && stack[j].bb == b
  }

  /** The indexes, of the first `n` targets of `x`, that are the first with their target and mark a closing edge. */
  function ClosingTargets(targets: seq<nat>, x: nat, n: nat, edges: set<Edge>): seq<nat>
    requires n <= |targets|
  {
    if n == 0 then []
    else
      ClosingTargets(targets, x, n - 1, edges) +
      if (x, targets[n - 1]) in edges && targets[n - 1] !in targets[..n - 1] then [n - 1] else []
  }

  datatype State = State(stack: seq<DfsItem>, pathSet: set<nat>, done: set<nat>, edges: set<Edge>,
                         closing: seq<seq<nat>>, order: seq<nat>)

  /** The stack is a path from the entry, each block on it the last target taken of the one below. */
  ghost predicate Stacked(g: Blocks, entry: nat, stack: seq<DfsItem>) {
    && (forall j :: 0 <= j < |stack| ==> stack[j].bb < |g| && stack[j].target <= |g[stack[j].bb]|)
    && (forall i, j :: 0 <= i < j < |stack| ==> stack[i].bb != stack[j].bb)
    && (stack != [] ==> stack[0].bb == entry)
    && (forall j :: 0 <= j < |stack| - 1 ==> TookNext(g, stack[j], stack[j + 1].bb))
  }

  ghost predicate TookNext(g: Blocks, item: DfsItem, next: nat) {
    item.bb < |g| && 0 < item.target <= |g[item.bb]| && g[item.bb][item.target - 1] == next
  }

  /** An edge looked at is marked, or leads to a completed block. */
  ghost predicate Handled(s: State, x: nat, t: nat) {
    (x, t) in s.edges || t in s.done
  }

  /** Completed blocks are in the order, and below those that lead to them but for marked edges. */
  ghost predicate Completed(g: Blocks, entry: nat, s: State) {
    && Distinct(s.order) && (forall x :: x in s.order <==> x in s.done) && (forall x :: x in s.done ==> x < |g|)
    && Descends(g, s.order, s.edges)
    && (forall j :: 0 <= j < |s.stack| ==> s.stack[j].bb !in s.done)
  }

  /** Of a block on the stack, the targets before the next one are handled, but for the one that
      is on the stack above. */
  ghost predicate LookedAt(g: Blocks, s: State) {
    forall j, i ::
      0 <= j < |s.stack| && 0 <= i < s.stack[j].target && s.stack[j].target <= |TargetsOf(g, s.stack[j].bb)| ==>
      (j < |s.stack| - 1 && i == s.stack[j].target - 1) || Handled(s, s.stack[j].bb, TargetsOf(g, s.stack[j].bb)[i])
  }

  function TargetsOf(g: Blocks, x: nat): seq<nat> {
    if x < |g| then g[x] else []
  }

  /** Marked edges lead back to where they come from. */
  ghost predicate ClosesLoop(g: Blocks, e: Edge) {
    IsEdge(g, e.0, e.1) && Reaches(g, e.1, e.0)
  }

  /** How many targets of `x` were looked at. */
  ghost function Looked(g: Blocks, s: State, x: nat): nat {
    if x in s.done then |TargetsOf(g, x)|
    else if j :| 0 <= j < |s.stack| && s.stack[j].bb == x then s.stack[j].target
    else 0
  }

  ghost predicate Reported(g: Blocks, s: State) {
    |s.closing| == |g| && forall x :: 0 <= x < |g| ==> ReportedFor(g[x], x, Looked(g, s, x), s.edges, s.closing[x])
  }

  /** Of the first `n` targets of `x`, the closing ones are listed, and no other is marked. */
  ghost predicate ReportedFor(targets: seq<nat>, x: nat, n: nat, edges: set<Edge>, closing: seq<nat>) {
    && n <= |targets| && closing == ClosingTargets(targets, x, n, edges)
    && forall t :: (x, t) in edges ==> t in targets[..n]
  }

  ghost predicate Going(g: Blocks, entry: nat, s: State) {
    && Stacked(g, entry, s.stack)
    && (forall b :: b in s.pathSet <==> OnStack(s.stack, b) && Tracked(g, entry, b))
    && Completed(g, entry, s) && LookedAt(g, s)
    && (forall e :: e in s.edges ==> ClosesLoop(g, e) && (OnStack(s.stack, e.1) || e.1 in s.done))
    && Reported(g, s)
    && (OnStack(s.stack, entry) || entry in s.done)
  }

  // ---------- tracking some blocks is enough ----------

  lemma TwoWaysIn(g: Blocks, x: nat, i: nat, y: nat, j: nat, b: nat)
    requires x < |g| && i < |g[x]| && g[x][i] == b && y < |g| && j < |g[y]| && g[y][j] == b && x != y
    ensures |Inbound(g, b)| > 1
  {
    var all := Inbound(g, b);
    assert (x, i) in all && (y, j) in all;
    assert (y, j) in all - {(x, i)};
    assert |all - {(x, i)}| > 0;
  }

  /** A target of the top block that is on the stack is tracked: the way it came in is not from the top block. */
  lemma OnStackIsTracked(g: Blocks, entry: nat, stack: seq<DfsItem>, i: nat)
    requires Stacked(g, entry, stack) && stack != []
    requires i < |g[stack[|stack| - 1].bb]| && OnStack(stack, g[stack[|stack| - 1].bb][i])
    ensures Tracked(g, entry, g[stack[|stack| - 1].bb][i])
  {
    var top := stack[|stack| - 1].bb;
    var b := g[top][i];
    assert (top, i) in Inbound(g, b);
    if b != entry {
      var j :| 0 <= j < |stack| && stack[j].bb == b;
      assert j > 0;
      var below := stack[j - 1];
      assert TookNext(g, below, b);
      TwoWaysIn(g, top, i, below.bb, below.target - 1, b);
    }
  }

  /** A block on the stack reaches the top. */
  lemma {:induction false} StackReaches(g: Blocks, entry: nat, stack: seq<DfsItem>, j: nat, k: nat)
    requires Stacked(g, entry, stack) && j <= k < |stack|
    ensures Reaches(g, stack[j].bb, stack[k].bb)
    decreases k - j
  {
    if j == k {
      ReachesSelf(g, stack[j].bb);
    } else {
      StackReaches(g, entry, stack, j, k - 1);
      assert TookNext(g, stack[k - 1], stack[k - 1 + 1].bb);
      ReachesStep(g, stack[j].bb, stack[k - 1].bb, stack[k].bb);
    }
  }

  // ---------- steps ----------

  lemma LookedOnStack(g: Blocks, s: State, j: nat)
    requires j < |s.stack| && s.stack[j].bb !in s.done
    requires forall i, k :: 0 <= i < k < |s.stack| ==> s.stack[i].bb != s.stack[k].bb
    ensures Looked(g, s, s.stack[j].bb) == s.stack[j].target
  {
  }

  function Advanced(stack: seq<DfsItem>): seq<DfsItem>
    requires stack != []
  {
    var top := stack[|stack| - 1];
    stack[|stack| - 1 := DfsItem(top.bb, top.target + 1)]
  }

  function Skipped(s: State): State
    requires s.stack != []
  {
    s.(stack := Advanced(s.stack))
  }

  function Marked(s: State, next: nat): State
    requires s.stack != [] && s.stack[|s.stack| - 1].bb < |s.closing|
  {
    var top := s.stack[|s.stack| - 1];
    s.(stack := Advanced(s.stack), edges := s.edges + {(top.bb, next)},
       closing := s.closing[top.bb := s.closing[top.bb] + [top.target]])
  }

  function Nested(g: Blocks, s: State, next: nat): State
    requires s.stack != []
  {
    s.(stack := Advanced(s.stack) + [DfsItem(next, 0)],
       pathSet := if |Inbound(g, next)| > 1 then s.pathSet + {next} else s.pathSet)
  }

  function Popped(s: State): State
    requires s.stack != []
  {
    var bb := s.stack[|s.stack| - 1].bb;
    s.(stack := s.stack[..|s.stack| - 1], pathSet := s.pathSet - {bb}, done := s.done + {bb}, order := s.order + [bb])
  }

  lemma AdvancedStack(g: Blocks, entry: nat, stack: seq<DfsItem>)
    requires Stacked(g, entry, stack) && stack != [] && stack[|stack| - 1].target < |g[stack[|stack| - 1].bb]|
    ensures Stacked(g, entry, Advanced(stack))
    ensures forall b :: OnStack(Advanced(stack), b) <==> OnStack(stack, b)
  {
    var next := Advanced(stack);
    assert forall j :: 0 <= j < |stack| ==> next[j].bb == stack[j].bb;
    forall b
      ensures OnStack(next, b) <==> OnStack(stack, b)
    {
      if OnStack(stack, b) {
        var j :| 0 <= j < |stack| && stack[j].bb == b;
        assert next[j].bb == b;
      }
    }
  }

  /** One more target of `x`, which is marked already or leads to a completed block. */
  lemma ReportedSame(targets: seq<nat>, x: nat, n: nat, edges: set<Edge>, closing: seq<nat>)
    requires ReportedFor(targets, x, n, edges, closing) && n < |targets|
    requires (x, targets[n]) in edges ==> targets[n] in targets[..n]
    ensures ReportedFor(targets, x, n + 1, edges, closing)
  {
    assert targets[..n + 1] == targets[..n] + [targets[n]];
  }

  lemma {:induction false} ClosingStays(targets: seq<nat>, x: nat, n: nat, edges: set<Edge>, e: Edge)
    requires n <= |targets| && (e.0 == x ==> e.1 !in targets[..n])
    ensures ClosingTargets(targets, x, n, edges + {e}) == ClosingTargets(targets, x, n, edges)
    decreases n
  {
    if n > 0 {
      assert targets[..n][n - 1] == targets[n - 1];
      assert forall t :: t in targets[..n - 1] ==> t in targets[..n];
      ClosingStays(targets, x, n - 1, edges, e);
    }
  }

  /** One more target of `x`, marked now. */
  lemma ReportedMore(targets: seq<nat>, x: nat, n: nat, edges: set<Edge>, closing: seq<nat>)
    requires ReportedFor(targets, x, n, edges, closing) && n < |targets| && targets[n] !in targets[..n]
    ensures ReportedFor(targets, x, n + 1, edges + {(x, targets[n])}, closing + [n])
  {
    assert targets[..n + 1] == targets[..n] + [targets[n]];
    ClosingStays(targets, x, n, edges, (x, targets[n]));
  }

  lemma ReportedOther(targets: seq<nat>, x: nat, n: nat, edges: set<Edge>, closing: seq<nat>, e: Edge)
    requires ReportedFor(targets, x, n, edges, closing) && e.0 != x
    ensures ReportedFor(targets, x, n, edges + {e}, closing)
  {
    ClosingStays(targets, x, n, edges, e);
  }

  /** The target is completed, or the edge is marked already. */
  lemma SkipTarget(g: Blocks, entry: nat, s: State)
    requires Valid(g) && Going(g, entry, s) && s.stack != []
    requires
      var top := s.stack[|s.stack| - 1];
      top.target < |g[top.bb]| && Handled(s, top.bb, g[top.bb][top.target])
    ensures Going(g, entry, Skipped(s))
  {
    hide Completed, LookedAt, Reported, Looked, OnStack, Tracked, ClosesLoop;
    var s' := Skipped(s);
    StackFacts(g, entry, s);
    AdvancedStack(g, entry, s.stack);
    AdvancedLookedAt(g, s, s');
    StillCompleted(g, entry, s, s');
    SkipReported(g, s);
  }

  lemma SkipReported(g: Blocks, s: State)
    requires Valid(g) && Reported(g, s) && LookedAt(g, s) && s.stack != [] && s.stack[|s.stack| - 1].bb < |g|
    requires forall j :: 0 <= j < |s.stack| ==> s.stack[j].bb !in s.done
    requires forall i, k :: 0 <= i < k < |s.stack| ==> s.stack[i].bb != s.stack[k].bb
    requires s.stack[|s.stack| - 1].target < |g[s.stack[|s.stack| - 1].bb]|
    ensures Reported(g, s.(stack := Advanced(s.stack)))
  {
    var top := s.stack[|s.stack| - 1];
    hide LookedAt, Looked;
    forall x | 0 <= x < |g|
      ensures ReportedFor(g[x], x, Looked(g, s.(stack := Advanced(s.stack)), x), s.edges, s.closing[x])
    {
      assert ReportedFor(g[x], x, Looked(g, s, x), s.edges, s.closing[x]);
      LookedAdvanced(g, s, x);
      if x == top.bb {
        ReportedSame(g[x], x, top.target, s.edges, s.closing[x]);
      }
    }
  }

  /** Advancing changes what was looked at for the top only. */
  lemma LookedAdvanced(g: Blocks, s: State, x: nat)
    requires s.stack != [] && forall j :: 0 <= j < |s.stack| ==> s.stack[j].bb !in s.done
    requires forall i, k :: 0 <= i < k < |s.stack| ==> s.stack[i].bb != s.stack[k].bb
    ensures
      var top := s.stack[|s.stack| - 1];
      && Looked(g, s, top.bb) == top.target
      && Looked(g, s.(stack := Advanced(s.stack)), x) == if x == top.bb then top.target + 1 else Looked(g, s, x)
  {
    var n, s' := |s.stack| - 1, s.(stack := Advanced(s.stack));
    LookedOnStack(g, s, n);
    assert forall j :: 0 <= j <= n ==> s'.stack[j].bb == s.stack[j].bb;
    if x !in s.done && OnStack(s.stack, x) {
      var j :| 0 <= j < |s.stack| && s.stack[j].bb == x;
      LookedOnStack(g, s, j);
      LookedOnStack(g, s', j);
    }
  }

  lemma AdvancedLookedAt(g: Blocks, s: State, s': State)
    requires LookedAt(g, s) && s.stack != [] && s'.stack == Advanced(s.stack) && s.edges <= s'.edges &&
      s.done == s'.done
    requires
      var top := s.stack[|s.stack| - 1];
      top.target < |TargetsOf(g, top.bb)| && Handled(s', top.bb, TargetsOf(g, top.bb)[top.target])
    ensures LookedAt(g, s')
  {
    forall j, i | 0 <= j < |s'.stack| && 0 <= i < s'.stack[j].target &&
                  s'.stack[j].target <= |TargetsOf(g, s'.stack[j].bb)|
      ensures (j < |s'.stack| - 1 && i == s'.stack[j].target - 1) ||
              Handled(s', s'.stack[j].bb, TargetsOf(g, s'.stack[j].bb)[i])
    {
      if i < s.stack[j].target {
        assert (j < |s.stack| - 1 && i == s.stack[j].target - 1) ||
               Handled(s, s.stack[j].bb, TargetsOf(g, s.stack[j].bb)[i]);
      }
    }
  }

  lemma StillCompleted(g: Blocks, entry: nat, s: State, s': State)
    requires Completed(g, entry, s) && s.edges <= s'.edges && s'.done == s.done && s'.order == s.order
    requires forall j :: 0 <= j < |s'.stack| ==> s'.stack[j].bb !in s.done
    ensures Completed(g, entry, s')
  {
  }

  lemma MarkReported(g: Blocks, s: State, s': State)
    requires Valid(g) && Reported(g, s) && LookedAt(g, s) && s.stack != [] && s.stack[|s.stack| - 1].bb < |g|
    requires forall j :: 0 <= j < |s.stack| ==> s.stack[j].bb !in s.done
    requires forall i, k :: 0 <= i < k < |s.stack| ==> s.stack[i].bb != s.stack[k].bb
    requires
      var top := s.stack[|s.stack| - 1];
      && top.target < |g[top.bb]| && !Handled(s, top.bb, g[top.bb][top.target])
      && s' == Marked(s, g[top.bb][top.target])
    ensures Reported(g, s')
  {
    var top := s.stack[|s.stack| - 1];
    NotSeenBefore(g, s);
    hide LookedAt, Looked, ReportedFor;
    forall x | 0 <= x < |g|
      ensures ReportedFor(g[x], x, Looked(g, s', x), s'.edges, s'.closing[x])
    {
      assert ReportedFor(g[x], x, Looked(g, s, x), s.edges, s.closing[x]);
      LookedMarked(g, s, s', x);
      if x == top.bb {
        ReportedMore(g[x], x, top.target, s.edges, s.closing[x]);
      } else {
        ReportedOther(g[x], x, Looked(g, s, x), s.edges, s.closing[x], (top.bb, g[top.bb][top.target]));
      }
    }
  }

  /** The top block's target that is on the stack reaches it. */
  lemma TopCloses(g: Blocks, entry: nat, stack: seq<DfsItem>)
    requires Valid(g) && Stacked(g, entry, stack) && stack != []
    requires
      var top := stack[|stack| - 1];
      top.target < |g[top.bb]| && OnStack(stack, g[top.bb][top.target])
    ensures
      var top := stack[|stack| - 1];
      ClosesLoop(g, (top.bb, g[top.bb][top.target]))
  {
    var top := stack[|stack| - 1];
    var j :| 0 <= j < |stack| && stack[j].bb == g[top.bb][top.target];
    StackReaches(g, entry, stack, j, |stack| - 1);
  }

  /** The stack's blocks differ and are not completed. */
  lemma StackFacts(g: Blocks, entry: nat, s: State)
    requires Stacked(g, entry, s.stack) && Completed(g, entry, s) && s.stack != []
    ensures forall j :: 0 <= j < |s.stack| ==> s.stack[j].bb !in s.done && s.stack[j].bb < |g|
    ensures forall i, k :: 0 <= i < k < |s.stack| ==> s.stack[i].bb != s.stack[k].bb
    ensures forall j :: 0 <= j < |s.stack| ==> Advanced(s.stack)[j].bb == s.stack[j].bb
  {
  }

  /** The target is on the stack: the edge closes a loop. */
  lemma MarkTarget(g: Blocks, entry: nat, s: State)
    requires Valid(g) && Going(g, entry, s) && s.stack != []
    requires
      var top := s.stack[|s.stack| - 1];
      && top.target < |g[top.bb]| && !Handled(s, top.bb, g[top.bb][top.target]) && g[top.bb][top.target] in s.pathSet
    ensures
      var top := s.stack[|s.stack| - 1];
      top.bb < |s.closing| && Going(g, entry, Marked(s, g[top.bb][top.target]))
  {
    TopInRange(g, entry, s);
    var top := s.stack[|s.stack| - 1];
    StackFacts(g, entry, s);
    AdvancedStack(g, entry, s.stack);
    TopCloses(g, entry, s.stack);
    MarkedParts(g, entry, s, g[top.bb][top.target]);
    MarkedGoing(g, entry, s, top.bb, g[top.bb][top.target], Marked(s, g[top.bb][top.target]));
  }

  lemma MarkedParts(g: Blocks, entry: nat, s: State, t: nat)
    requires Valid(g) && s.stack != [] && s.stack[|s.stack| - 1].bb < |g|
    requires Completed(g, entry, s) && LookedAt(g, s) && Reported(g, s)
    requires forall j :: 0 <= j < |s.stack| ==> s.stack[j].bb !in s.done
    requires forall j :: 0 <= j < |s.stack| ==> Advanced(s.stack)[j].bb == s.stack[j].bb
    requires forall i, k :: 0 <= i < k < |s.stack| ==> s.stack[i].bb != s.stack[k].bb
    requires
      var top := s.stack[|s.stack| - 1];
      top.target < |g[top.bb]| && t == g[top.bb][top.target] && !Handled(s, top.bb, t)
    ensures Completed(g, entry, Marked(s, t)) && LookedAt(g, Marked(s, t)) && Reported(g, Marked(s, t))
  {
    assert |s.closing| == |g|;
    hide Completed, LookedAt, Reported;
    var s' := Marked(s, t);
    AdvancedLookedAt(g, s, s');
    StillCompleted(g, entry, s, s');
    MarkReported(g, s, s');
  }

  lemma MarkedGoing(g: Blocks, entry: nat, s: State, x: nat, t: nat, s': State)
    requires Going(g, entry, s) && t in s.pathSet && ClosesLoop(g, (x, t))
    requires s'.pathSet == s.pathSet && s'.done == s.done && s'.edges == s.edges + {(x, t)}
    requires forall b :: OnStack(s'.stack, b) <==> OnStack(s.stack, b)
    requires Stacked(g, entry, s'.stack) && Completed(g, entry, s') && LookedAt(g, s') && Reported(g, s')
    ensures Going(g, entry, s')
  {
    hide OnStack, Stacked, Completed, LookedAt, Reported, ClosesLoop, Tracked;
  }

  lemma LookedMarked(g: Blocks, s: State, s': State, x: nat)
    requires s.stack != [] && forall j :: 0 <= j < |s.stack| ==> s.stack[j].bb !in s.done
    requires forall i, k :: 0 <= i < k < |s.stack| ==> s.stack[i].bb != s.stack[k].bb
    requires s'.stack == Advanced(s.stack) && s'.done == s.done
    ensures
      var top := s.stack[|s.stack| - 1];
      && Looked(g, s, top.bb) == top.target
      && Looked(g, s', x) == if x == top.bb then top.target + 1 else Looked(g, s, x)
  {
    LookedAdvanced(g, s, x);
    LookedSame(g, s.(stack := Advanced(s.stack)), s', x);
  }

  /** What was looked at depends on the stack and what is completed only. */
  lemma LookedSame(g: Blocks, s: State, s': State, x: nat)
    requires s.stack == s'.stack && s.done == s'.done
    requires forall i, k :: 0 <= i < k < |s.stack| ==> s.stack[i].bb != s.stack[k].bb
    ensures Looked(g, s, x) == Looked(g, s', x)
  {
    if x !in s.done && OnStack(s.stack, x) {
      var j :| 0 <= j < |s.stack| && s.stack[j].bb == x;
      assert s'.stack[j].bb == x;
    }
  }

  /** The target of the top that is not handled was none of its targets looked at. */
  lemma NotSeenBefore(g: Blocks, s: State)
    requires Valid(g) && LookedAt(g, s) && s.stack != [] && s.stack[|s.stack| - 1].bb < |g|
    requires
      var top := s.stack[|s.stack| - 1];
      top.target < |g[top.bb]| && !Handled(s, top.bb, g[top.bb][top.target])
    ensures
      var top := s.stack[|s.stack| - 1];
      g[top.bb][top.target] !in g[top.bb][..top.target]
  {
    var n, top := |s.stack| - 1, s.stack[|s.stack| - 1];
    forall i | 0 <= i < top.target
      ensures g[top.bb][i] != g[top.bb][top.target]
    {
      assert TargetsOf(g, s.stack[n].bb) == g[top.bb];
      assert Handled(s, s.stack[n].bb, TargetsOf(g, s.stack[n].bb)[i]);
    }
  }

  /** The target was not met yet. */
  lemma Nest(g: Blocks, entry: nat, s: State)
    requires Valid(g) && Going(g, entry, s) && s.stack != []
    requires
      var top := s.stack[|s.stack| - 1];
      && top.target < |g[top.bb]| && g[top.bb][top.target] !in s.done && g[top.bb][top.target] !in s.pathSet
    ensures
      var top := s.stack[|s.stack| - 1];
      var next := g[top.bb][top.target];
      && !OnStack(s.stack, next)
      && Going(g, entry, Nested(g, s, next))
  {
    hide Completed, LookedAt, Reported, Looked, OnStack, ClosesLoop;
    var top := s.stack[|s.stack| - 1];
    var next := g[top.bb][top.target];
    var s' := Nested(g, s, next);
    if OnStack(s.stack, next) {
      OnStackIsTracked(g, entry, s.stack, top.target);
    }
    StackFacts(g, entry, s);
    NestStack(g, entry, s.stack);
    StillCompleted(g, entry, s, s');
    NestLookedAt(g, s, s');
    NestAllReported(g, s, s');
    assert forall b :: OnStack(s'.stack, b) <==> OnStack(s.stack, b) || b == next;
  }

  lemma NestAllReported(g: Blocks, s: State, s': State)
    requires Valid(g) && Reported(g, s) && LookedAt(g, s) && s.stack != [] && s.stack[|s.stack| - 1].bb < |g|
    requires forall j :: 0 <= j < |s.stack| ==> s.stack[j].bb !in s.done
    requires forall i, k :: 0 <= i < k < |s.stack| ==> s.stack[i].bb != s.stack[k].bb
    requires
      var top := s.stack[|s.stack| - 1];
      && top.target < |g[top.bb]| && !OnStack(s.stack, g[top.bb][top.target]) && g[top.bb][top.target] !in s.done
      && s'.stack == Advanced(s.stack) + [DfsItem(g[top.bb][top.target], 0)]
      && s'.done == s.done && s'.edges == s.edges && s'.closing == s.closing
    ensures Reported(g, s')
  {
    var top := s.stack[|s.stack| - 1];
    hide LookedAt, Looked, ReportedFor;
    forall x | 0 <= x < |g|
      ensures ReportedFor(g[x], x, Looked(g, s', x), s'.edges, s'.closing[x])
    {
      assert ReportedFor(g[x], x, Looked(g, s, x), s.edges, s.closing[x]);
      LookedNested(g, s, s', x);
      if x == top.bb {
        NestReported(g, s);
      }
    }
  }

  lemma NestReported(g: Blocks, s: State)
    requires Valid(g) && LookedAt(g, s) && s.stack != [] && s.stack[|s.stack| - 1].bb < |g|
    requires
      var top := s.stack[|s.stack| - 1];
      && top.target < |g[top.bb]| && top.bb < |s.closing|
      && ReportedFor(g[top.bb], top.bb, top.target, s.edges, s.closing[top.bb])
    ensures
      var top := s.stack[|s.stack| - 1];
      ReportedFor(g[top.bb], top.bb, top.target + 1, s.edges, s.closing[top.bb])
  {
    var top := s.stack[|s.stack| - 1];
    ReportedSame(g[top.bb], top.bb, top.target, s.edges, s.closing[top.bb]);
  }

  lemma NestStack(g: Blocks, entry: nat, stack: seq<DfsItem>)
    requires Valid(g) && Stacked(g, entry, stack) && stack != []
    requires
      var top := stack[|stack| - 1];
      top.target < |g[top.bb]| && !OnStack(stack, g[top.bb][top.target])
    ensures
      var top := stack[|stack| - 1];
      var next := g[top.bb][top.target];
      && Stacked(g, entry, Advanced(stack) + [DfsItem(next, 0)])
      && forall b :: OnStack(Advanced(stack) + [DfsItem(next, 0)], b) <==> OnStack(stack, b) || b == next
  {
    var top := stack[|stack| - 1];
    var next := g[top.bb][top.target];
    AdvancedStack(g, entry, stack);
    var more := Advanced(stack);
    assert forall b :: OnStack(more, b) <==> OnStack(stack, b);
    PushStack(g, entry, more, next);
  }

  lemma PushStack(g: Blocks, entry: nat, stack: seq<DfsItem>, next: nat)
    requires Stacked(g, entry, stack) && stack != [] && TookNext(g, stack[|stack| - 1], next)
    requires next < |g| && !OnStack(stack, next)
    ensures Stacked(g, entry, stack + [DfsItem(next, 0)])
    ensures forall b :: OnStack(stack + [DfsItem(next, 0)], b) <==> OnStack(stack, b) || b == next
  {
    var stack' := stack + [DfsItem(next, 0)];
    assert stack'[|stack|] == DfsItem(next, 0);
    forall b
      ensures OnStack(stack', b) <==> OnStack(stack, b) || b == next
    {
      if OnStack(stack, b) {
        var j :| 0 <= j < |stack| && stack[j].bb == b;
        assert stack'[j].bb == b;
      }
    }
  }

  lemma LookedNested(g: Blocks, s: State, s': State, x: nat)
    requires s.stack != [] && forall j :: 0 <= j < |s.stack| ==> s.stack[j].bb !in s.done
    requires forall i, k :: 0 <= i < k < |s.stack| ==> s.stack[i].bb != s.stack[k].bb
    requires |s'.stack| == |s.stack| + 1 && s'.stack[..|s.stack|] == Advanced(s.stack) && s'.done == s.done
    requires !OnStack(s.stack, s'.stack[|s.stack|].bb) && s'.stack[|s.stack|].target == 0
    requires s'.stack[|s.stack|].bb !in s.done
    ensures
      var top := s.stack[|s.stack| - 1];
      && Looked(g, s, top.bb) == top.target
      && Looked(g, s', x) == if x == top.bb then top.target + 1 else Looked(g, s, x)
  {
    var n := |s.stack| - 1;
    LookedOnStack(g, s, n);
    assert forall j :: 0 <= j <= n ==> s'.stack[j] == s'.stack[..|s.stack|][j] && s'.stack[j].bb == s.stack[j].bb;
    if x in s.done {
    } else if OnStack(s.stack, x) {
      var j :| 0 <= j < |s.stack| && s.stack[j].bb == x;
      LookedOnStack(g, s, j);
      LookedOnStack(g, s', j);
    } else if x == s'.stack[|s.stack|].bb {
      LookedOnStack(g, s', |s.stack|);
    }
  }

  lemma NestLookedAt(g: Blocks, s: State, s': State)
    requires LookedAt(g, s) && s.stack != [] && s'.edges == s.edges && s'.done == s.done
    requires |s'.stack| == |s.stack| + 1 && s'.stack[..|s.stack|] == Advanced(s.stack) &&
      s'.stack[|s.stack|].target == 0
    ensures LookedAt(g, s')
  {
    var n := |s.stack| - 1;
    assert forall j :: 0 <= j <= n ==> s'.stack[j] == s'.stack[..|s.stack|][j];
    forall j, i | 0 <= j < |s'.stack| && 0 <= i < s'.stack[j].target &&
                  s'.stack[j].target <= |TargetsOf(g, s'.stack[j].bb)|
      ensures (j < |s'.stack| - 1 && i == s'.stack[j].target - 1) ||
              Handled(s', s'.stack[j].bb, TargetsOf(g, s'.stack[j].bb)[i])
    {
      if i < s.stack[j].target {
        assert Handled(s, s.stack[j].bb, TargetsOf(g, s.stack[j].bb)[i]) || (j < n && i == s.stack[j].target - 1);
      }
    }
  }

  /** All targets of the top were looked at: it is completed. */
  lemma Pop(g: Blocks, entry: nat, s: State)
    requires Valid(g) && Going(g, entry, s) && s.stack != []
    requires s.stack[|s.stack| - 1].target == |g[s.stack[|s.stack| - 1].bb]|
    ensures
      var bb := s.stack[|s.stack| - 1].bb;
      bb !in s.done && Going(g, entry, Popped(s))
  {
    hide Completed, LookedAt, Reported, Looked, OnStack, ClosesLoop, Tracked;
    var n, top := |s.stack| - 1, s.stack[|s.stack| - 1];
    var s' := Popped(s);
    StackFacts(g, entry, s);
    PopStack(g, entry, s.stack);
    PopCompleted(g, entry, s, s');
    PopReported(g, s, s');
    PopLookedAt(g, s, s');
    assert OnStack(s'.stack, entry) <==> OnStack(s.stack, entry) && entry != top.bb;
  }

  lemma PopReported(g: Blocks, s: State, s': State)
    requires Reported(g, s) && s.stack != [] && s'.edges == s.edges && s'.closing == s.closing
    requires forall j :: 0 <= j < |s.stack| ==> s.stack[j].bb !in s.done
    requires forall i, k :: 0 <= i < k < |s.stack| ==> s.stack[i].bb != s.stack[k].bb
    requires
      var top := s.stack[|s.stack| - 1];
      && top.target == |TargetsOf(g, top.bb)| && s'.stack == s.stack[..|s.stack| - 1] && s'.done == s.done + {top.bb}
    ensures Reported(g, s')
  {
    hide Looked, ReportedFor;
    forall x | 0 <= x < |g|
      ensures ReportedFor(g[x], x, Looked(g, s', x), s'.edges, s'.closing[x])
    {
      assert ReportedFor(g[x], x, Looked(g, s, x), s.edges, s.closing[x]);
      LookedPopped(g, s, s', x);
    }
  }

  lemma PopStack(g: Blocks, entry: nat, stack: seq<DfsItem>)
    requires Stacked(g, entry, stack) && stack != []
    ensures Stacked(g, entry, stack[..|stack| - 1]) && OnStack(stack, stack[|stack| - 1].bb)
    ensures forall b :: OnStack(stack[..|stack| - 1], b) <==> OnStack(stack, b) && b != stack[|stack| - 1].bb
  {
    var n := |stack| - 1;
    var less := stack[..n];
    forall b
      ensures OnStack(less, b) <==> OnStack(stack, b) && b != stack[n].bb
    {
      if OnStack(stack, b) && b != stack[n].bb {
        var j :| 0 <= j < |stack| && stack[j].bb == b;
        assert less[j].bb == b;
      }
    }
  }

  lemma BeforeStays(order: seq<nat>, last: nat, x: nat, y: nat)
    requires Before(order, x, y)
    ensures Before(order + [last], x, y)
  {
    var i, j :| 0 <= i < j < |order| && order[i] == x && order[j] == y;
    assert (order + [last])[i] == x && (order + [last])[j] == y;
  }

  lemma BeforeLast(order: seq<nat>, last: nat, x: nat)
    requires x in order
    ensures Before(order + [last], x, last)
  {
    var i :| 0 <= i < |order| && order[i] == x;
    assert (order + [last])[i] == x && (order + [last])[|order|] == last;
  }

  lemma PopCompleted(g: Blocks, entry: nat, s: State, s': State)
    requires Valid(g) && Stacked(g, entry, s.stack) && Completed(g, entry, s) && LookedAt(g, s) && s.stack != []
    requires
      var top := s.stack[|s.stack| - 1];
      && top.target == |g[top.bb]| && s'.stack == s.stack[..|s.stack| - 1] && s'.edges == s.edges
      && s'.done == s.done + {top.bb} && s'.order == s.order + [top.bb]
    ensures Completed(g, entry, s')
  {
    var n, top := |s.stack| - 1, s.stack[|s.stack| - 1];
    forall x: nat, t: nat | x in s'.order && IsEdge(g, x, t)
      ensures (x, t) in s'.edges || Before(s'.order, t, x)
    {
      if x == top.bb {
        var i :| 0 <= i < |g[x]| && g[x][i] == t;
        assert Handled(s, s.stack[n].bb, TargetsOf(g, s.stack[n].bb)[i]);
        if t in s.done {
          BeforeLast(s.order, top.bb, t);
        }
      } else if (x, t) !in s.edges {
        assert Before(s.order, t, x);
        BeforeStays(s.order, top.bb, t, x);
      }
    }
  }

  lemma LookedPopped(g: Blocks, s: State, s': State, x: nat)
    requires s.stack != [] && forall j :: 0 <= j < |s.stack| ==> s.stack[j].bb !in s.done
    requires forall i, k :: 0 <= i < k < |s.stack| ==> s.stack[i].bb != s.stack[k].bb
    requires
      var top := s.stack[|s.stack| - 1];
      && top.target == |TargetsOf(g, top.bb)| && s'.stack == s.stack[..|s.stack| - 1] && s'.done == s.done + {top.bb}
    ensures Looked(g, s', x) == Looked(g, s, x)
  {
    var n := |s.stack| - 1;
    LookedOnStack(g, s, n);
    if x !in s'.done && OnStack(s.stack, x) {
      var j :| 0 <= j < |s.stack| && s.stack[j].bb == x;
      LookedOnStack(g, s, j);
      assert s'.stack[j] == s.stack[j];
      LookedOnStack(g, s', j);
    }
  }

  lemma PopLookedAt(g: Blocks, s: State, s': State)
    requires LookedAt(g, s) && s.stack != [] && s'.edges == s.edges
    requires s'.stack == s.stack[..|s.stack| - 1] && s'.done == s.done + {s.stack[|s.stack| - 1].bb}
    requires forall j :: 0 <= j < |s.stack| - 1 ==> TookNext(g, s.stack[j], s.stack[j + 1].bb)
    ensures LookedAt(g, s')
  {
    var n := |s.stack| - 1;
    forall j, i | 0 <= j < |s'.stack| && 0 <= i < s'.stack[j].target &&
                  s'.stack[j].target <= |TargetsOf(g, s'.stack[j].bb)|
      ensures (j < |s'.stack| - 1 && i == s'.stack[j].target - 1) ||
              Handled(s', s'.stack[j].bb, TargetsOf(g, s'.stack[j].bb)[i])
    {
      assert s'.stack[j] == s.stack[j];
      assert TookNext(g, s.stack[j], s.stack[j + 1].bb);
      assert (j < n && i == s.stack[j].target - 1) || Handled(s, s.stack[j].bb, TargetsOf(g, s.stack[j].bb)[i]);
    }
  }

  // ---------- the search ----------

  lemma Start(g: Blocks, entry: nat, s: State)
    requires Valid(g) && entry < |g|
    requires s ==
      State([DfsItem(entry, 0)], if Inbound(g, entry) != {} then {entry} else {}, {}, {}, seq(|g|, _ => []), [])
    ensures Going(g, entry, s)
  {
    assert s.stack[0].bb == entry;
    forall b
      ensures b in s.pathSet <==> OnStack(s.stack, b) && Tracked(g, entry, b)
    {
    }
    forall x | 0 <= x < |g|
      ensures ReportedFor(g[x], x, Looked(g, s, x), s.edges, s.closing[x])
    {
    }
  }

  /** Targets still to be looked at on the stack, and the blocks on it. */
  ghost function Left(g: Blocks, stack: seq<DfsItem>): nat {
    if stack == [] then 0
    else
      var top := stack[|stack| - 1];
      var targets := |TargetsOf(g, top.bb)|;
      Left(g, stack[..|stack| - 1]) + 1 + if top.target < targets then targets - top.target else 0
  }

  lemma LeftAdvanced(g: Blocks, stack: seq<DfsItem>)
    requires stack != [] && stack[|stack| - 1].target < |TargetsOf(g, stack[|stack| - 1].bb)|
    ensures Left(g, Advanced(stack)) < Left(g, stack)
  {
    assert Advanced(stack)[..|stack| - 1] == stack[..|stack| - 1];
  }

  /** Blocks neither on the stack nor completed. */
  ghost function Unmet(g: Blocks, s: State): set<nat> {
    set x {:trigger OnStack(s.stack, x)} | 0 <= x < |g| && x !in s.done && !OnStack(s.stack, x)
  }

  /** What the search ends with: every block from which control can get on is completed once; the marked edges close
      loops; without them no edge leads to a block completed later; and each block reports its marked edges. */
  ghost predicate Scanned(g: Blocks, entry: nat, edges: set<Edge>, closing: seq<seq<nat>>, order: seq<nat>) {
    && Distinct(order) && entry in order
    && (forall x: nat, t: nat :: x in order && IsEdge(g, x, t) ==> t in order)
    && Descends(g, order, edges)
    && (forall e :: e in edges ==> ClosesLoop(g, e) && e.0 in order)
    && |closing| == |g|
    && forall x :: 0 <= x < |g| && x in order ==> closing[x] == ClosingTargets(g[x], x, |g[x]|, edges)
  }

  lemma Finished(g: Blocks, entry: nat, s: State)
    requires Valid(g) && Going(g, entry, s) && s.stack == []
    ensures Scanned(g, entry, s.edges, s.closing, s.order)
  {
    forall x: nat, t: nat | x in s.order && IsEdge(g, x, t)
      ensures t in s.order
    {
      assert (x, t) in s.edges || Before(s.order, t, x);
    }
    forall e | e in s.edges
      ensures e.0 in s.order
    {
      assert IsEdge(g, e.0, e.1);
      assert ReportedFor(g[e.0], e.0, Looked(g, s, e.0), s.edges, s.closing[e.0]);
    }
    forall x | 0 <= x < |g| && x in s.order
      ensures s.closing[x] == ClosingTargets(g[x], x, |g[x]|, s.edges)
    {
      assert ReportedFor(g[x], x, Looked(g, s, x), s.edges, s.closing[x]);
    }
  }

  /** Nothing is met anew, and nothing lost. */
  lemma UnmetSame(g: Blocks, s: State, s': State)
    requires forall b :: OnStack(s'.stack, b) || b in s'.done <==> OnStack(s.stack, b) || b in s.done
    ensures Unmet(g, s') == Unmet(g, s)
  {
  }

  lemma UnmetLess(g: Blocks, s: State, s': State, next: nat)
    requires next < |g| && !OnStack(s.stack, next) && next !in s.done && s'.done == s.done
    requires forall b :: OnStack(s'.stack, b) <==> OnStack(s.stack, b) || b == next
    ensures Unmet(g, s') < Unmet(g, s)
  {
    assert next in Unmet(g, s) && next !in Unmet(g, s');
  }

  ghost predicate Progress(g: Blocks, s: State, s': State) {
    Unmet(g, s') < Unmet(g, s) || (Unmet(g, s') == Unmet(g, s) && Left(g, s'.stack) < Left(g, s.stack))
  }

  lemma TopInRange(g: Blocks, entry: nat, s: State)
    requires Going(g, entry, s) && s.stack != []
    ensures
      var top := s.stack[|s.stack| - 1];
      && top.bb < |g| && top.target <= |g[top.bb]| && |s.closing| == |g|
  {
  }

  /** The next target of the top block is looked at, in one of the three ways there are. */
  lemma AdvanceGoesOn(g: Blocks, entry: nat, s: State)
    requires Valid(g) && Going(g, entry, s) && s.stack != []
    requires s.stack[|s.stack| - 1].target < |TargetsOf(g, s.stack[|s.stack| - 1].bb)|
    ensures |s.closing| == |g|
    ensures
      var top := s.stack[|s.stack| - 1];
      var next := TargetsOf(g, top.bb)[top.target];
      if next !in s.done && next !in s.pathSet
        then Going(g, entry, Nested(g, s, next)) && Progress(g, s, Nested(g, s, next))
      else if Handled(s, top.bb, next) then Going(g, entry, Skipped(s)) && Progress(g, s, Skipped(s))
      else Going(g, entry, Marked(s, next)) && Progress(g, s, Marked(s, next))
  {
    hide Completed, LookedAt, Reported, Looked, OnStack, ClosesLoop, Tracked;
    TopInRange(g, entry, s);
    var top := s.stack[|s.stack| - 1];
    var next := g[top.bb][top.target];
    AdvancedStack(g, entry, s.stack);
    LeftAdvanced(g, s.stack);
    if next !in s.done && next !in s.pathSet {
      Nest(g, entry, s);
      NestStack(g, entry, s.stack);
      UnmetLess(g, s, Nested(g, s, next), next);
    } else if Handled(s, top.bb, next) {
      SkipTarget(g, entry, s);
      UnmetSame(g, s, Skipped(s));
    } else {
      MarkTarget(g, entry, s);
      UnmetSame(g, s, Marked(s, next));
    }
  }

  lemma PopGoesOn(g: Blocks, entry: nat, s: State)
    requires Valid(g) && Going(g, entry, s) && s.stack != []
    requires s.stack[|s.stack| - 1].target >= |TargetsOf(g, s.stack[|s.stack| - 1].bb)|
    ensures s.stack[|s.stack| - 1].bb !in s.done && Going(g, entry, Popped(s)) && Progress(g, s, Popped(s))
  {
    hide Completed, LookedAt, Reported, Looked, OnStack, ClosesLoop, Tracked;
    TopInRange(g, entry, s);
    Pop(g, entry, s);
    PopStack(g, entry, s.stack);
    UnmetSame(g, s, Popped(s));
  }

  method AnalyzeFnc(g: Blocks, entry: nat) returns (edges: set<Edge>, closing: seq<seq<nat>>, ghost order: seq<nat>)
    requires Valid(g) && entry < |g|
    ensures Scanned(g, entry, edges, closing, order)
  {
    hide Going, Unmet, Left;
    edges, closing, order := {}, seq(|g|, _ => []), [];
    var pathSet, done: set<nat> := {}, {};
    if Inbound(g, entry) != {} {
      pathSet := {entry};
    }
    var stack := [DfsItem(entry, 0)];
    Start(g, entry, State(stack, pathSet, done, edges, closing, order));
    while stack != []
      invariant Going(g, entry, State(stack, pathSet, done, edges, closing, order))
      decreases Unmet(g, State(stack, pathSet, done, edges, closing, order)), Left(g, stack)
    {
      ghost var s := State(stack, pathSet, done, edges, closing, order);
      TopInRange(g, entry, s);
      var top := stack[|stack| - 1];
      var bb := top.bb;
      if |g[bb]| <= top.target {
        PopGoesOn(g, entry, s);
        assert bb !in done;  // what the source calls a malfunction otherwise
        done, pathSet, stack, order := done + {bb}, pathSet - {bb}, stack[..|stack| - 1], order + [bb];
        continue;
      }
      AdvanceGoesOn(g, entry, s);
      var target := top.target;
      stack := stack[|stack| - 1 := DfsItem(bb, target + 1)];
      var bbNext := g[bb][target];
      if bbNext in done {
        continue;
      }
      if bbNext !in pathSet {
        stack := stack + [DfsItem(bbNext, 0)];
        if 1 < |Inbound(g, bbNext)| {
          pathSet := pathSet + {bbNext};
        }
        continue;
      }
      if (bb, bbNext) in edges {
        continue;
      }
      edges := edges + {(bb, bbNext)};
      closing := closing[bb := closing[bb] + [target]];
    }
    Finished(g, entry, State(stack, pathSet, done, edges, closing, order));
  }

  /** Without the marked edges no cycle is left among the blocks that the entry reaches, and no cycle has none. */
  lemma LoopClosingEdgesCutAllCycles(g: Blocks, entry: nat, edges: set<Edge>, closing: seq<seq<nat>>, order: seq<nat>,
                                     way: seq<nat>, p: seq<nat>)
    requires Scanned(g, entry, edges, closing, order)
    requires IsPath(g, way) && way[0] == entry && IsPath(g, p) && p[0] == way[|way| - 1]
    requires |p| > 1 && p[|p| - 1] == p[0]
    ensures exists l :: 0 < l < |p| && (p[l - 1], p[l]) in edges
  {
    OrderIsClosed(g, order, way, |way| - 1);
    CutsAllCycles(g, order, edges, p);
  }
}
