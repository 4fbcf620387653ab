/** The union that the inclusion check runs on has lost the final states of the left automaton.  When affirmative
    answers mean inclusion nevertheless, and where they do not. */
module DroppedFinals {
  import opened Collections
  import opened InclusionVerdicts
  import opened TreeAutomata
  import Inclusion

  // ---------- one state for each node of a tree ----------

  function Size(t: Tree): nat
    decreases t, 1
  {
    1 + SizeAll(t.children)
  }

  function SizeAll(ts: seq<Tree>): nat
    decreases ts, 0
  {
    if ts == [] then 0 else Size(ts[0]) + SizeAll(ts[1..])
  }

  /** The states of the roots, when the nodes are numbered from `base` on, each root before what is below it. */
  function Roots(ts: seq<Tree>, base: nat): (r: seq<nat>)
    ensures |r| == |ts|
    decreases ts
  {
    if ts == [] then [] else [base] + Roots(ts[1..], base + Size(ts[0]))
  }

  function NodeTs(t: Tree, base: nat): seq<Transition>
    decreases t, 1
  {
    [Transition(Roots(t.children, base + 1), t.symbol, base)] + NodesTs(t.children, base + 1)
  }

  function NodesTs(ts: seq<Tree>, base: nat): seq<Transition>
    decreases ts, 0
  {
    if ts == [] then [] else NodeTs(ts[0], base) + NodesTs(ts[1..], base + Size(ts[0]))
  }

  /** It accepts the tree and nothing else, and labels nothing but its subtrees. */
  function TreeAutomaton(t: Tree): Automaton {
    Automaton({0}, NodeTs(t, 0))
  }

  lemma {:induction false} NodeRange(t: Tree, base: nat, tr: Transition)
    requires tr in NodeTs(t, base)
    ensures base <= tr.rhs < base + Size(t)
    decreases t, 1
  {
    if tr in NodesTs(t.children, base + 1) {
      NodesRange(t.children, base + 1, tr);
    }
  }

  lemma {:induction false} NodesRange(ts: seq<Tree>, base: nat, tr: Transition)
    requires tr in NodesTs(ts, base)
    ensures base <= tr.rhs < base + SizeAll(ts)
    decreases ts, 0
  {
    if tr in NodeTs(ts[0], base) {
      NodeRange(ts[0], base, tr);
    } else {
      NodesRange(ts[1..], base + Size(ts[0]), tr);
    }
  }

  /** The transitions into the states of the nodes are those made for the nodes. */
  ghost predicate Block(m: Automaton, t: Tree, base: nat) {
    forall tr :: tr in NodeTs(t, base) <==> tr in m.transitions && base <= tr.rhs < base + Size(t)
  }

  ghost predicate Blocks(m: Automaton, ts: seq<Tree>, base: nat) {
    forall tr :: tr in NodesTs(ts, base) <==> tr in m.transitions && base <= tr.rhs < base + SizeAll(ts)
  }

  lemma BelowBlock(m: Automaton, t: Tree, base: nat)
    requires Block(m, t, base)
    ensures Blocks(m, t.children, base + 1)
  {
    forall tr | tr in NodesTs(t.children, base + 1)
      ensures tr in NodeTs(t, base) && base + 1 <= tr.rhs < base + Size(t)
    {
      NodesRange(t.children, base + 1, tr);
    }
  }

  lemma {:induction false} BlockOf(m: Automaton, ts: seq<Tree>, base: nat, i: nat)
    requires Blocks(m, ts, base) && i < |ts|
    ensures Block(m, ts[i], Roots(ts, base)[i])
    decreases ts
  {
    var next := base + Size(ts[0]);
    forall tr | tr in NodesTs(ts, base)
      ensures tr in NodeTs(ts[0], base) <==> tr.rhs < next
      ensures tr in NodesTs(ts[1..], next) <==> next <= tr.rhs
    {
      if tr in NodeTs(ts[0], base) {
        NodeRange(ts[0], base, tr);
      }
      if tr in NodesTs(ts[1..], next) {
        NodesRange(ts[1..], next, tr);
      }
    }
    if i > 0 {
      BlockOf(m, ts[1..], next, i - 1);
    }
  }

  lemma {:induction false} BlockAround(ts: seq<Tree>, base: nat, q: nat) returns (i: nat)
    requires base <= q < base + SizeAll(ts)
    ensures i < |ts| && Roots(ts, base)[i] <= q < Roots(ts, base)[i] + Size(ts[i])
    decreases ts
  {
    i := 0;
    if base + Size(ts[0]) <= q {
      var j := BlockAround(ts[1..], base + Size(ts[0]), q);
      i := j + 1;
    }
  }

  lemma {:induction false} NodeReached(m: Automaton, t: Tree, base: nat)
    requires Block(m, t, base)
    ensures base in Reached(m, t)
    decreases t
  {
    BelowBlock(m, t, base);
    forall i | 0 <= i < |t.children|
      ensures Roots(t.children, base + 1)[i] in Reached(m, t.children[i])
    {
      BlockOf(m, t.children, base + 1, i);
      NodeReached(m, t.children[i], Roots(t.children, base + 1)[i]);
    }
    var tr := NodeTs(t, base)[0];
    assert tr in NodeTs(t, base);
    assert Fires(tr, t.symbol, ReachedAll(m, t.children));
  }

  /** The state of a node is reached by the subtree there only. */
  lemma {:induction false} OnlySubtrees(m: Automaton, t: Tree, base: nat, s: Tree, q: nat)
    requires Block(m, t, base) && q in Reached(m, s) && base <= q < base + Size(t)
    ensures Within(s, t) && (q == base ==> s == t)
    decreases t
  {
    BelowBlock(m, t, base);
    if q == base {
      RootOnly(m, t, base, s);
      assert s.children == t.children by {
        forall i | 0 <= i < |t.children|
          ensures s.children[i] == t.children[i]
        {
          BlockOf(m, t.children, base + 1, i);
          OnlySubtrees(m, t.children[i], Roots(t.children, base + 1)[i], s.children[i],
                       Roots(t.children, base + 1)[i]);
        }
      }
    } else {
      var i := BlockAround(t.children, base + 1, q);
      BlockOf(m, t.children, base + 1, i);
      OnlySubtrees(m, t.children[i], Roots(t.children, base + 1)[i], s, q);
    }
  }

  lemma RootOnly(m: Automaton, t: Tree, base: nat, s: Tree)
    requires Block(m, t, base) && base in Reached(m, s)
    ensures s.symbol == t.symbol && |s.children| == |t.children|
    ensures forall i :: 0 <= i < |t.children| ==> Roots(t.children, base + 1)[i] in Reached(m, s.children[i])
  {
    var tr :| tr in m.transitions && Fires(tr, s.symbol, ReachedAll(m, s.children)) && tr.rhs == base;
    assert tr in NodeTs(t, base);
    if tr in NodesTs(t.children, base + 1) {
      NodesRange(t.children, base + 1, tr);
    }
    assert tr == NodeTs(t, base)[0];
  }

  lemma {:induction false} RootsApart(ts: seq<Tree>, base: nat)
    ensures Distinct(Roots(ts, base)) && forall q :: q in Roots(ts, base) ==> base <= q
    decreases ts
  {
    if ts != [] {
      var rest := Roots(ts[1..], base + Size(ts[0]));
      RootsApart(ts[1..], base + Size(ts[0]));
      assert Roots(ts, base) == [base] + rest;
      assert forall j :: 0 <= j < |rest| ==> rest[j] in rest;
    }
  }

  /** The tree is one that `b` labels, so its symbols have the arities that they have there. */
  lemma {:induction false} NodeFits(t: Tree, base: nat, b: Automaton, tr: Transition)
    requires Ranked(b, b) && Reached(b, t) != {} && tr in NodeTs(t, base)
    ensures Distinct(tr.lhs) && forall u :: u in b.transitions && u.symbol == tr.symbol ==> |u.lhs| == |tr.lhs|
    decreases t, 1
  {
    var q :| q in Reached(b, t);
    var u :| u in b.transitions && Fires(u, t.symbol, ReachedAll(b, t.children)) && u.rhs == q;
    if tr in NodesTs(t.children, base + 1) {
      forall i | 0 <= i < |t.children|
        ensures Reached(b, t.children[i]) != {}
      {
        assert u.lhs[i] in Reached(b, t.children[i]);
      }
      NodesFit(t.children, base + 1, b, tr);
    } else {
      RootsApart(t.children, base + 1);
    }
  }

  lemma {:induction false} NodesFit(ts: seq<Tree>, base: nat, b: Automaton, tr: Transition)
    requires Ranked(b, b) && (forall i :: 0 <= i < |ts| ==> Reached(b, ts[i]) != {}) && tr in NodesTs(ts, base)
    ensures Distinct(tr.lhs) && forall u :: u in b.transitions && u.symbol == tr.symbol ==> |u.lhs| == |tr.lhs|
    decreases ts, 0
  {
    if tr in NodeTs(ts[0], base) {
      NodeFits(ts[0], base, b, tr);
    } else {
      NodesFit(ts[1..], base + Size(ts[0]), b, tr);
    }
  }

  lemma TreeBlock(t: Tree)
    ensures Block(TreeAutomaton(t), t, 0)
  {
    forall tr | tr in NodeTs(t, 0)
      ensures tr.rhs < Size(t)
    {
      NodeRange(t, 0, tr);
    }
  }

  lemma TreeAutomatonMeans(t: Tree, s: Tree)
    ensures Accepts(TreeAutomaton(t), s) <==> s == t
    ensures Reached(TreeAutomaton(t), s) != {} ==> Within(s, t)
  {
    var m := TreeAutomaton(t);
    TreeBlock(t);
    NodeReached(m, t, 0);
    forall q | q in Reached(m, s)
      ensures Within(s, t) && (q == 0 ==> s == t)
    {
      var tr :| tr in m.transitions && Fires(tr, s.symbol, ReachedAll(m, s.children)) && tr.rhs == q;
      NodeRange(t, 0, tr);
      OnlySubtrees(m, t, 0, s, q);
    }
  }

  // ---------- exactly when affirmative answers mean inclusion ----------

  /** Whatever automaton without repetition is on the left, an affirmative answer means inclusion. */
  ghost predicate AffirmsInclusion(b: Automaton) {
    forall a :: LinearLhs(a) && Ranked(a, b) && Verdict(a, b, false, true) ==> Included(a, b)
  }

  ghost predicate AcceptsLabelled(b: Automaton) {
    forall t :: Reached(b, t) != {} ==> Accepts(b, t)
  }

  lemma TrackedIncluded(a: Automaton, b: Automaton)
    requires Tracked(a, b) && AcceptsLabelled(b)
    ensures Included(a, b)
  {}

  /** A tree that `b` labels and does not accept makes an automaton that is tracked and not included. */
  lemma RejectedTree(b: Automaton, t: Tree)
    requires Ranked(b, b) && Reached(b, t) != {} && !Accepts(b, t)
    ensures LinearLhs(TreeAutomaton(t)) && Ranked(TreeAutomaton(t), b)
    ensures Tracked(TreeAutomaton(t), b) && !Included(TreeAutomaton(t), b)
  {
    hide Reached, Accepts;
    var a := TreeAutomaton(t);
    forall tr | tr in a.transitions
      ensures Distinct(tr.lhs) && forall u :: u in b.transitions && u.symbol == tr.symbol ==> |u.lhs| == |tr.lhs|
    {
      NodeFits(t, 0, b, tr);
    }
    forall s | Reached(a, s) != {}
      ensures Reached(b, s) != {}
    {
      TreeAutomatonMeans(t, s);
      SubtreesLabelled(b, s, t);
    }
    TreeAutomatonMeans(t, t);
  }

  lemma AffirmsInclusionIff(b: Automaton)
    requires Ranked(b, b)
    ensures AffirmsInclusion(b) <==> AcceptsLabelled(b)
  {
    hide Verdict, LinearLhs, Ranked, Included, Tracked, Reached, Accepts;
    if AcceptsLabelled(b) {
      forall a | LinearLhs(a) && Verdict(a, b, false, true)
        ensures Included(a, b)
      {
        VerdictAsWritten(a, b, true);
        TrackedIncluded(a, b);
      }
    } else {
      var t :| Reached(b, t) != {} && !Accepts(b, t);
      RejectedTree(b, t);
      var r := VerdictExists(TreeAutomaton(t), b, false);
      VerdictAsWritten(TreeAutomaton(t), b, r);
    }
  }

  /** If the right automaton accepts whatever it labels, the check as written decides inclusion of trim automata. */
  lemma DecidesInclusion(a: Automaton, b: Automaton, r: bool)
    requires Verdict(a, b, false, r) && LinearLhs(a) && Trim(a) && AcceptsLabelled(b)
    ensures r <==> Included(a, b)
  {
    hide Verdict, LinearLhs, Trim, AcceptsLabelled, Included, Reached;
    VerdictAsWritten(a, b, r);
    if r {
      TrackedIncluded(a, b);
    }
  }

  // ---------- an input on which it does not ----------

  const OneLeaf := Automaton({1}, [Transition([], 0, 1)])

  const NoFinals := Automaton({}, [Transition([], 0, 0)])

  lemma OneLeafLabels(m: Automaton, q: nat, t: Tree, p: nat)
    requires m.transitions == [Transition([], 0, q)]
    ensures p in Reached(m, t) <==> p == q && t == Node(0, [])
  {
    var tr := Transition([], 0, q);
    if t == Node(0, []) {
      assert tr in m.transitions && Fires(tr, t.symbol, ReachedAll(m, t.children));
    }
  }

  lemma OneLeafTrim()
    ensures LinearLhs(OneLeaf) && Trim(OneLeaf) && Ranked(OneLeaf, NoFinals)
    ensures Tracked(OneLeaf, NoFinals) && !Included(OneLeaf, NoFinals)
  {
    hide Reached;
    forall q | Productive(OneLeaf, q)
      ensures LeadsToFinal(OneLeaf, q, [])
    {
      var t :| q in Reached(OneLeaf, t);
      OneLeafLabels(OneLeaf, 1, t, q);
    }
    forall t | Reached(OneLeaf, t) != {}
      ensures Reached(NoFinals, t) != {}
    {
      var q :| q in Reached(OneLeaf, t);
      OneLeafLabels(OneLeaf, 1, t, q);
      OneLeafLabels(NoFinals, 0, t, 0);
    }
    OneLeafLabels(OneLeaf, 1, Node(0, []), 1);
    assert Accepts(OneLeaf, Node(0, []));
  }

  /** A leaf that only the left one of these automata accepts: the check affirms. */
  method DroppedVerdict() returns (r: bool)
    ensures r && Trim(OneLeaf) && LinearLhs(OneLeaf) && !Included(OneLeaf, NoFinals)
  {
    OneLeafTrim();
    r := Inclusion.Subseteq(OneLeaf, NoFinals);
  }
}
