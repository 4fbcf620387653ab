/** Left-hand sides that list a child state twice: for each of them two automata of which the check says that the right
    one tracks the left one, although it does not.  Affirmative answers can be relied on exactly for left-hand sides
    without repetition. */
module RepeatedChildren {
  import opened Collections
  import opened Buckets
  import opened InclusionRuns
  import opened InclusionVerdicts
  import opened RenamedUnion
  import opened TreeAutomata
  import Inclusion

  // ---------- the two automata ----------

  /** A left-hand side with a symbol for each of its states, these states once each, the first place of one that it
      repeats, and two states more; and the states of the right automaton. */
  datatype Names = Names(ls: seq<nat>, syms: seq<nat>, ds: seq<nat>, first: nat, gate: nat, top: nat, yes: nat,
                         other: nat, early: nat, later: nat, both: nat)

  ghost predicate Fits(x: Names) {
    && |x.syms| == |x.ls| && FirstAt(x.ls, x.first)
    && (exists j :: x.first < j < |x.ls| && x.ls[j] == x.ls[x.first])
    && (forall i :: 0 <= i < |x.ls| ==> x.syms[i] >= 3)
    && (forall i, j :: 0 <= i < |x.ls| && 0 <= j < |x.ls| ==> (x.syms[i] == x.syms[j] <==> x.ls[i] == x.ls[j]))
    && (forall p :: p in x.ds <==> p in x.ls)
    && x.gate !in x.ls && x.top !in x.ls && x.gate != x.top
    && x.early != x.later && x.early != x.both && x.later != x.both
  }

  ghost predicate Under(x: Names, n: nat) {
    && (forall i :: 0 <= i < |x.ls| ==> x.ls[i] < n) && x.gate < n && x.top < n
    && x.yes < n && x.other < n && x.early < n && x.later < n && x.both < n
  }

  /** The state that is repeated. */
  function Twice(x: Names): nat
    requires x.first < |x.ls|
  {
    x.ls[x.first]
  }

  function LeftLeaf(x: Names, i: nat): Transition
    requires i < |x.ls| == |x.syms|
  {
    Transition([], x.syms[i], x.ls[i])
  }

  /** From all states of the left-hand side together there is a way to one state more, and from there to the repeated
      one. */
  ghost predicate LeftHas(x: Names, t: Transition)
    requires x.first < |x.ls| == |x.syms|
  {
    || (exists i :: 0 <= i < |x.ls| && t == LeftLeaf(x, i))
    || t == Transition(x.ds, 2, x.gate) || t == Transition([x.gate], 1, Twice(x)) || t == Transition(x.ls, 0, x.top)
  }

  function RightLeaf(x: Names, i: nat): Transition
    requires x.first < |x.ls| == |x.syms| && i < |x.ls|
  {
    Transition([], x.syms[i], if x.ls[i] == Twice(x) then x.early else x.other)
  }

  /** The leaf of the repeated state leads to two states, and so does the way round.  The left-hand side is labelled
      with the early state at all places of the repeated one, or with the later one at the first of them. */
  ghost predicate RightHas(x: Names, t: Transition)
    requires x.first < |x.ls| == |x.syms|
  {
    || (exists i :: 0 <= i < |x.ls| && t == RightLeaf(x, i))
    || t == Transition([], x.syms[x.first], x.both) || t == Transition(Gates(x), 2, x.other)
    || t == Transition([x.other], 1, x.later) || t == Transition([x.other], 1, x.both)
    || t == Transition(AllEarly(x), 0, x.yes) || t == Transition(LateFirst(x), 0, x.yes)
  }

  function Gates(x: Names): (r: seq<nat>)
    requires x.first < |x.ls|
    ensures |r| == |x.ds| && forall i :: 0 <= i < |r| ==> r[i] == if x.ds[i] == Twice(x) then x.both else x.other
  {
    seq(|x.ds|, i requires 0 <= i < |x.ds| => if x.ds[i] == Twice(x) then x.both else x.other)
  }

  function AllEarly(x: Names): (r: seq<nat>)
    requires x.first < |x.ls|
    ensures |r| == |x.ls| && forall i :: 0 <= i < |r| ==> r[i] == if x.ls[i] == Twice(x) then x.early else x.other
  {
    seq(|x.ls|, i requires 0 <= i < |x.ls| => if x.ls[i] == Twice(x) then x.early else x.other)
  }

  function LateFirst(x: Names): (r: seq<nat>)
    requires x.first < |x.ls|
    ensures |r| == |x.ls|
    ensures forall i :: 0 <= i < |r| ==>
      r[i] == if i == x.first then x.later else if x.ls[i] == Twice(x) then x.both else x.other
  {
    seq(|x.ls|, i requires 0 <= i < |x.ls| =>
      if i == x.first then x.later else if x.ls[i] == Twice(x) then x.both else x.other)
  }

  /** In whatever order the transitions are listed, with or without the final state. */
  ghost predicate IsLeft(a: Automaton, x: Names)
    requires x.first < |x.ls| == |x.syms|
  {
    a.finals <= {x.top} && forall t :: t in a.transitions <==> LeftHas(x, t)
  }

  ghost predicate IsRight(b: Automaton, x: Names)
    requires x.first < |x.ls| == |x.syms|
  {
    b.finals == {x.yes} && forall t :: t in b.transitions <==> RightHas(x, t)
  }

  /** Two such automata. */
  ghost predicate Pair(a: Automaton, b: Automaton, x: Names) {
    Fits(x) && IsLeft(a, x) && IsRight(b, x)
  }

  lemma PairRanked(a: Automaton, b: Automaton, x: Names)
    requires Pair(a, b, x)
    ensures Ranked(a, b)
  {
    forall t, u | t in a.transitions && u in b.transitions && t.symbol == u.symbol
      ensures |t.lhs| == |u.lhs|
    {
      assert LeftHas(x, t) && RightHas(x, u);
    }
  }

  // ---------- what the right automaton makes of tuples ----------

  function EarlySet(x: Names, p: nat): set<nat>
    requires x.first < |x.ls|
  {
    if p == Twice(x) then {x.early, x.both} else {x.other}
  }

  function LateSet(x: Names): set<nat> {
    {x.later, x.both}
  }

  lemma LeafPost(a: Automaton, b: Automaton, x: Names, i: nat)
    requires Pair(a, b, x) && i < |x.ls|
    ensures Post(b, x.syms[i], []) == EarlySet(x, x.ls[i])
  {
    forall t | t in b.transitions && Fires(t, x.syms[i], [])
      ensures t.rhs in EarlySet(x, x.ls[i])
    {
      assert RightHas(x, t);
    }
    var t, u := RightLeaf(x, i), Transition([], x.syms[x.first], x.both);
    assert RightHas(x, t) && RightHas(x, u);
    assert Fires(t, x.syms[i], []) && Fires(u, x.syms[x.first], []);
  }

  lemma LatePost(a: Automaton, b: Automaton, x: Names)
    requires Pair(a, b, x)
    ensures Post(b, 1, [{x.other}]) == LateSet(x)
  {
    forall t | t in b.transitions && Fires(t, 1, [{x.other}])
      ensures t.rhs in LateSet(x)
    {
      assert RightHas(x, t);
    }
    var t, u := Transition([x.other], 1, x.later), Transition([x.other], 1, x.both);
    assert RightHas(x, t) && RightHas(x, u);
    assert Fires(t, 1, [{x.other}]) && Fires(u, 1, [{x.other}]);
  }

  lemma GatePost(a: Automaton, b: Automaton, x: Names, tuple: seq<set<nat>>)
    requires Pair(a, b, x) && |tuple| == |x.ds|
    requires forall k :: 0 <= k < |x.ds| ==> (if x.ds[k] == Twice(x) then x.both else x.other) in tuple[k]
    ensures Post(b, 2, tuple) == {x.other}
  {
    forall t | t in b.transitions && Fires(t, 2, tuple)
      ensures t.rhs == x.other
    {
      assert RightHas(x, t);
    }
    var t := Transition(Gates(x), 2, x.other);
    assert RightHas(x, t);
    assert Fires(t, 2, tuple);
  }

  ghost predicate Labelled(x: Names, tuple: seq<set<nat>>)
    requires x.first < |x.ls|
  {
    Fires(Transition(AllEarly(x), 0, x.yes), 0, tuple) || Fires(Transition(LateFirst(x), 0, x.yes), 0, tuple)
  }

  lemma TuplePost(a: Automaton, b: Automaton, x: Names, tuple: seq<set<nat>>)
    requires Pair(a, b, x) && |tuple| == |x.ls|
    ensures Post(b, 0, tuple) == if Labelled(x, tuple) then {x.yes} else {}
  {
    forall t | t in b.transitions && Fires(t, 0, tuple)
      ensures t.rhs == x.yes && Labelled(x, tuple)
    {
      assert RightHas(x, t);
    }
    assert RightHas(x, Transition(AllEarly(x), 0, x.yes)) && RightHas(x, Transition(LateFirst(x), 0, x.yes));
  }

  // ---------- the left automaton is not tracked ----------

  function Leaves(syms: seq<nat>): (ts: seq<Tree>)
    ensures |ts| == |syms| && forall k :: 0 <= k < |syms| ==> ts[k] == Node(syms[k], [])
  {
    seq(|syms|, k requires 0 <= k < |syms| => Node(syms[k], []))
  }

  lemma LeafReached(a: Automaton, b: Automaton, x: Names, i: nat)
    requires Pair(a, b, x) && i < |x.ls|
    ensures x.ls[i] in Reached(a, Node(x.syms[i], []))
    ensures Reached(b, Node(x.syms[i], [])) == EarlySet(x, x.ls[i])
  {
    LeafPost(a, b, x, i);
    assert LeftHas(x, LeftLeaf(x, i));
    assert Fires(LeftLeaf(x, i), x.syms[i], []);
  }

  lemma OneChildReached(m: Automaton, symbol: nat, t: Tree)
    ensures Reached(m, Node(symbol, [t])) == Post(m, symbol, [Reached(m, t)])
  {
    assert ReachedAll(m, [t]) == [Reached(m, t)];
  }

  /** A leaf for each state that is listed in `ds`. */
  lemma {:induction false} LeavesFor(x: Names, ds: seq<nat>) returns (ts: seq<Tree>)
    requires |x.syms| == |x.ls| && forall p :: p in ds ==> p in x.ls
    ensures |ts| == |ds|
    ensures forall k :: 0 <= k < |ds| ==>
      exists i :: 0 <= i < |x.ls| && x.ls[i] == ds[k] && ts[k] == Node(x.syms[i], [])
  {
    if ds == [] {
      ts := [];
    } else {
      assert ds[0] in x.ls;
      var i :| 0 <= i < |x.ls| && x.ls[i] == ds[0];
      var rest := LeavesFor(x, ds[1..]);
      ts := [Node(x.syms[i], [])] + rest;
    }
  }

  /** The way round, as a tree. */
  lemma LateTree(a: Automaton, b: Automaton, x: Names) returns (t: Tree)
    requires Pair(a, b, x)
    ensures Twice(x) in Reached(a, t) && Reached(b, t) == LateSet(x)
  {
    hide Reached, Pair;
    PairFits(a, b, x);
    var ts := LeavesFor(x, x.ds);
    forall k | 0 <= k < |x.ds|
      ensures x.ds[k] in Reached(a, ts[k])
      ensures (if x.ds[k] == Twice(x) then x.both else x.other) in Reached(b, ts[k])
    {
      var i :| 0 <= i < |x.ls| && x.ls[i] == x.ds[k] && ts[k] == Node(x.syms[i], []);
      LeafReached(a, b, x, i);
    }
    var gate := Node(2, ts);
    t := Node(1, [gate]);
    NodeReached(a, 2, ts);
    NodeReached(b, 2, ts);
    GatePost(a, b, x, ReachedAll(b, ts));
    OneChildReached(a, 1, gate);
    OneChildReached(b, 1, gate);
    LatePost(a, b, x);
    WayRound(a, b, x, ReachedAll(a, ts), Reached(a, gate));
  }

  lemma PairFits(a: Automaton, b: Automaton, x: Names)
    requires Pair(a, b, x)
    ensures Fits(x) && (forall t :: t in a.transitions <==> LeftHas(x, t))
    ensures a.finals <= {x.top} && b.finals == {x.yes} && Twice(x) in x.ls
  {}

  lemma WayRound(a: Automaton, b: Automaton, x: Names, tuple: seq<set<nat>>, gates: set<nat>)
    requires Pair(a, b, x) && |tuple| == |x.ds| && forall k :: 0 <= k < |x.ds| ==> x.ds[k] in tuple[k]
    requires gates == Post(a, 2, tuple)
    ensures Twice(x) in Post(a, 1, [gates])
  {
    var t, u := Transition(x.ds, 2, x.gate), Transition([x.gate], 1, Twice(x));
    assert LeftHas(x, t) && LeftHas(x, u);
    assert Fires(t, 2, tuple);
    assert Fires(u, 1, [gates]);
  }

  lemma NodeReached(m: Automaton, symbol: nat, ts: seq<Tree>)
    ensures Reached(m, Node(symbol, ts)) == Post(m, symbol, ReachedAll(m, ts))
  {}

  lemma TopReached(a: Automaton, b: Automaton, x: Names, tuple: seq<set<nat>>)
    requires Pair(a, b, x) && |tuple| == |x.ls| && forall k :: 0 <= k < |x.ls| ==> x.ls[k] in tuple[k]
    ensures x.top in Post(a, 0, tuple)
  {
    var t := Transition(x.ls, 0, x.top);
    assert LeftHas(x, t) && Fires(t, 0, tuple);
  }

  lemma LateRejected(x: Names, j: nat, tuple: seq<set<nat>>)
    requires Fits(x) && x.first < j < |x.ls| == |tuple| && x.ls[j] == Twice(x)
    requires tuple[x.first] == EarlySet(x, Twice(x)) && tuple[j] == LateSet(x)
    ensures !Labelled(x, tuple)
  {
    assert AllEarly(x)[j] == x.early && x.early !in LateSet(x);
    assert LateFirst(x)[x.first] == x.later && x.later !in EarlySet(x, Twice(x));
  }

  /** Leaves below the left-hand side, but the way round at a further place of the repeated state: the left automaton
      labels the tree, and the right one does not. */
  lemma MisledTree(a: Automaton, b: Automaton, x: Names) returns (t: Tree)
    requires Pair(a, b, x)
    ensures x.top in Reached(a, t) && Reached(b, t) == {}
  {
    hide Reached, Pair, Post;
    var j := SecondPlace(a, b, x);
    var ts := MisledChildren(a, b, x, j);
    t := Node(0, ts);
    MisledRoot(a, b, x, j, ReachedAll(a, ts), ReachedAll(b, ts));
    NodeReached(a, 0, ts);
    NodeReached(b, 0, ts);
  }

  lemma SecondPlace(a: Automaton, b: Automaton, x: Names) returns (j: nat)
    requires Pair(a, b, x)
    ensures x.first < j < |x.ls| && x.ls[j] == Twice(x)
  {
    j :| x.first < j < |x.ls| && x.ls[j] == x.ls[x.first];
  }

  lemma MisledChildren(a: Automaton, b: Automaton, x: Names, j: nat) returns (ts: seq<Tree>)
    requires Pair(a, b, x) && j < |x.ls| && x.ls[j] == Twice(x)
    ensures |ts| == |x.ls|
    ensures forall k :: 0 <= k < |x.ls| ==>
      x.ls[k] in Reached(a, ts[k]) && Reached(b, ts[k]) == if k == j then LateSet(x) else EarlySet(x, x.ls[k])
  {
    hide Reached, Fits, IsLeft, IsRight;
    SameLength(a, b, x);
    var late := LateTree(a, b, x);
    ts := Leaves(x.syms)[j := late];
    forall k | 0 <= k < |x.ls|
      ensures x.ls[k] in Reached(a, ts[k])
      ensures Reached(b, ts[k]) == if k == j then LateSet(x) else EarlySet(x, x.ls[k])
    {
      LeafReached(a, b, x, k);
    }
  }

  lemma SameLength(a: Automaton, b: Automaton, x: Names)
    requires Pair(a, b, x)
    ensures x.first < |x.ls| == |x.syms|
  {}

  lemma MisledRoot(a: Automaton, b: Automaton, x: Names, j: nat, left: seq<set<nat>>, right: seq<set<nat>>)
    requires Pair(a, b, x) && x.first < j < |x.ls| == |left| == |right| && x.ls[j] == Twice(x)
    requires forall k :: 0 <= k < |x.ls| ==> x.ls[k] in left[k]
    requires right[x.first] == EarlySet(x, Twice(x)) && right[j] == LateSet(x)
    ensures x.top in Post(a, 0, left) && Post(b, 0, right) == {}
  {
    hide Labelled, Post, IsLeft, IsRight;
    TopReached(a, b, x, left);
    LateRejected(x, j, right);
    TuplePost(a, b, x, right);
  }

  lemma MisledNotTracked(a: Automaton, b: Automaton, x: Names)
    requires Pair(a, b, x)
    ensures !Tracked(a, b)
    ensures a.finals == {x.top} ==> !Included(a, b)
  {
    hide Reached, Pair;
    var t := MisledTree(a, b, x);
    assert a.finals == {x.top} ==> Accepts(a, t);
    assert !Accepts(b, t);
  }

  // ---------- the search finds nothing ----------

  /** What the leaves of the left-hand side lead to. */
  ghost predicate Early(x: Names, e: Element)
    requires x.first < |x.ls|
  {
    e.0 in x.ls && e.1 == EarlySet(x, e.0)
  }

  function Gate(x: Names): Element {
    (x.gate, {x.other})
  }

  /** The second element of the repeated state. */
  function Late(x: Names): Element
    requires x.first < |x.ls|
  {
    (Twice(x), LateSet(x))
  }

  ghost predicate Known(x: Names, e: Element)
    requires x.first < |x.ls|
  {
    Early(x, e) || e == Gate(x) || e == Late(x) || e == (x.top, {x.yes})
  }

  /** All leaves' elements are there; the second one of the repeated state comes round, and the way round needs all of
      them processed. */
  ghost predicate Calm(x: Names, m: Moment)
    requires x.first < |x.ls|
  {
    && (forall e :: e in m.processed + m.pending ==> Known(x, e))
    && (forall e :: Early(x, e) ==> e in m.processed + m.pending)
    && (Gate(x) in m.processed + m.pending || Late(x) in m.processed + m.pending ==>
         forall e :: Early(x, e) ==> e in m.processed)
    && m.processed !! m.pending
  }

  /** None of these elements covers another one. */
  lemma KnownApart(x: Names, d: Element, e: Element)
    requires Fits(x) && Known(x, d) && Known(x, e) && d.0 == e.0 && d.1 <= e.1
    ensures d == e
  {
    assert x.early in EarlySet(x, Twice(x)) && x.early !in LateSet(x);
    assert x.later in LateSet(x) && x.later !in EarlySet(x, Twice(x));
  }

  lemma KnownInRange(x: Names, n: nat, rel: Relation, e: Element)
    requires Fits(x) && Under(x, n) && Known(x, e) && Identity(rel, n)
    ensures InRange(rel, e)
  {}

  /** Offers of such elements store all of them and remove none. */
  lemma KnownStays(x: Names, n: nat, rel: Relation, ps: set<Element>, ns: set<Element>, ps': set<Element>,
                   ns': set<Element>, given: set<Element>)
    requires Fits(x) && Under(x, n) && Identity(rel, n) && Offered(rel, ps, ns, ps', ns', given)
    requires forall e :: e in ps + ns + given ==> Known(x, e)
    ensures ps' == ps && ps' + ns' == ps + ns + given && ps' !! ns'
  {
    hide Known, Under;
    IdentityOrder(rel, n);
    forall e | e in ps + ns + given
      ensures e in ps' + ns'
    {
      KnownInRange(x, n, rel, e);
      BelowReflexive(rel, e);
      assert Dominated(rel, ps + ns, e) || e in given;
      var d :| d in ps' + ns' && Below(rel, d, e);
      KnownInRange(x, n, rel, d);
      KnownApart(x, d, e);
    }
  }

  /** Every state of the left-hand side has an element in `ps`. */
  ghost predicate AllThere(x: Names, ps: set<Element>)
    requires x.first < |x.ls|
  {
    forall p :: p in x.ls ==> (p, EarlySet(x, p)) in ps || Late(x) in ps
  }

  /** What a successor of such elements is, where it comes from if it is on the way round, and that it is harmless but
      for the left-hand side. */
  lemma SuccessorKnown(a: Automaton, b: Automaton, x: Names, ps: set<Element>, t: Transition, tuple: seq<set<nat>>)
    requires Pair(a, b, x) && forall e :: e in ps ==> Known(x, e)
    requires t in a.transitions && TupleFrom(ps, t, tuple) && t != Transition(x.ls, 0, x.top)
    ensures
      var d := (t.rhs, Post(b, t.symbol, tuple));
      && Known(x, d) && Harmless(a, b, d)
      && (d == Late(x) ==> Gate(x) in ps) && (d == Gate(x) ==> AllThere(x, ps))
  {
    hide Post;
    PairFits(a, b, x);
    if i :| 0 <= i < |x.ls| && t == LeftLeaf(x, i) {
      LeafPost(a, b, x, i);
      assert tuple == [];
      assert x.early in EarlySet(x, Twice(x)) && x.early !in LateSet(x);
    } else if t == Transition([x.gate], 1, Twice(x)) {
      assert (x.gate, tuple[0]) in ps;
      assert tuple == [{x.other}];
      LatePost(a, b, x);
    } else {
      GateTuple(x, ps, tuple);
      GatePost(a, b, x, tuple);
    }
  }

  lemma GateTuple(x: Names, ps: set<Element>, tuple: seq<set<nat>>)
    requires Fits(x) && (forall e :: e in ps ==> Known(x, e)) && TupleFrom(ps, Transition(x.ds, 2, x.gate), tuple)
    ensures forall k :: 0 <= k < |x.ds| ==> (if x.ds[k] == Twice(x) then x.both else x.other) in tuple[k]
    ensures AllThere(x, ps)
  {
    forall k | 0 <= k < |x.ds|
      ensures (if x.ds[k] == Twice(x) then x.both else x.other) in tuple[k]
      ensures (x.ds[k], EarlySet(x, x.ds[k])) in ps || Late(x) in ps
    {
      assert (x.ds[k], tuple[k]) in ps && x.ds[k] in x.ds;
    }
    forall p | p in x.ls
      ensures (p, EarlySet(x, p)) in ps || Late(x) in ps
    {
      assert p in x.ds;
      var k :| 0 <= k < |x.ds| && x.ds[k] == p;
    }
  }

  lemma TupleKnown(a: Automaton, b: Automaton, x: Names, tuple: seq<set<nat>>)
    requires Pair(a, b, x) && |tuple| == |x.ls|
    ensures Labelled(x, tuple) <==> Harmless(a, b, (x.top, Post(b, 0, tuple)))
    ensures Labelled(x, tuple) ==> Known(x, (x.top, Post(b, 0, tuple)))
  {
    hide Post, Labelled, Pair;
    PairFits(a, b, x);
    TuplePost(a, b, x, tuple);
    assert x.yes in {x.yes};
  }

  /** The element picked is at an indexed place, so either the second one of the repeated state is not processed yet or
      it stands first: the one tuple that is not labelled is not met. */
  lemma MetLabelled(x: Names, m: Moment, e: Element, i: nat, tuple: seq<set<nat>>)
    requires Fits(x) && Calm(x, m) && Lowest(m, e)
    requires FirstAt(x.ls, i) && x.ls[i] == e.0 && |tuple| == |x.ls| && tuple[i] == e.1
    requires forall k :: 0 <= k < |x.ls| ==> (x.ls[k], tuple[k]) in m.processed + {e}
    ensures Labelled(x, tuple)
  {
    forall k | 0 <= k < |x.ls|
      ensures if x.ls[k] == Twice(x) then tuple[k] == EarlySet(x, Twice(x)) || tuple[k] == LateSet(x)
              else tuple[k] == {x.other}
    {
      assert Known(x, (x.ls[k], tuple[k])) && x.ls[k] in x.ls;
    }
    if tuple[x.first] == LateSet(x) {
      LateLabelled(x, tuple);
    } else {
      forall k | 0 <= k < |x.ls| && x.ls[k] == Twice(x)
        ensures tuple[k] == EarlySet(x, Twice(x))
      {
        NotYetLate(x, m, e, i, tuple, k);
      }
      EarlyLabelled(x, tuple);
    }
  }

  /** With the second element of the repeated state processed, nothing of the left-hand side is pending. */
  lemma LatePicked(x: Names, m: Moment, e: Element)
    requires Fits(x) && Calm(x, m) && Lowest(m, e)
    ensures Late(x) in m.processed ==> e.0 !in x.ls
  {
    assert Known(x, e);
  }

  lemma NotYetLate(x: Names, m: Moment, e: Element, i: nat, tuple: seq<set<nat>>, k: nat)
    requires Fits(x) && Calm(x, m) && Lowest(m, e)
    requires FirstAt(x.ls, i) && x.ls[i] == e.0 && |tuple| == |x.ls| && tuple[i] == e.1
    requires tuple[x.first] != LateSet(x)
    requires k < |x.ls| && x.ls[k] == Twice(x) && (x.ls[k], tuple[k]) in m.processed + {e}
    ensures tuple[k] != LateSet(x)
  {
    hide Calm, Lowest;
    LatePicked(x, m, e);
    assert x.ls[i] in x.ls;
    if e.0 == Twice(x) {
      assert i == x.first;
    }
  }

  lemma EarlyLabelled(x: Names, tuple: seq<set<nat>>)
    requires x.first < |x.ls| == |tuple|
    requires forall k :: 0 <= k < |x.ls| ==> tuple[k] == EarlySet(x, x.ls[k])
    ensures Labelled(x, tuple)
  {
    assert Fires(Transition(AllEarly(x), 0, x.yes), 0, tuple);
  }

  lemma LateLabelled(x: Names, tuple: seq<set<nat>>)
    requires x.first < |x.ls| == |tuple| && tuple[x.first] == LateSet(x)
    requires forall k :: 0 <= k < |x.ls| ==>
      if x.ls[k] == Twice(x) then tuple[k] == EarlySet(x, Twice(x)) || tuple[k] == LateSet(x) else tuple[k] == {x.other}
    ensures Labelled(x, tuple)
  {
    assert Fires(Transition(LateFirst(x), 0, x.yes), 0, tuple);
  }

  lemma NoHarm(a: Automaton, b: Automaton, x: Names, m: Moment, e: Element)
    requires Pair(a, b, x) && Calm(x, m) && Lowest(m, e)
    ensures !Harm(a, b, m.processed + {e}, e.0, e.1)
  {
    hide Pair, Known, Labelled, Harmless, Post;
    PairFits(a, b, x);
    forall t, i: nat, tuple | HarmfulTuple(a, b, m.processed + {e}, e.0, e.1, t, i, tuple)
      ensures false
    {
      if t == Transition(x.ls, 0, x.top) {
        MetLabelled(x, m, e, i, tuple);
        TupleKnown(a, b, x, tuple);
      } else {
        SuccessorKnown(a, b, x, m.processed + {e}, t, tuple);
      }
    }
  }

  lemma NoLeafRefutes(a: Automaton, b: Automaton, x: Names)
    requires Pair(a, b, x)
    ensures !LeafRefutes(a, b)
  {
    hide Pair, Known, Harmless, Post;
    PairFits(a, b, x);
    forall t | t in a.transitions && t.lhs == []
      ensures Harmless(a, b, (t.rhs, Post(b, t.symbol, [])))
    {
      SuccessorKnown(a, b, x, {}, t, []);
    }
  }

  lemma GrownKnown(a: Automaton, b: Automaton, x: Names, ps: set<Element>, post: seq<Element>)
    requires Pair(a, b, x) && forall e :: e in ps ==> Known(x, e)
    requires Grown(a, b, ps, [], post)
    ensures forall d :: d in post ==>
      Known(x, d) && (d == Late(x) ==> Gate(x) in ps) && (d == Gate(x) ==> AllThere(x, ps))
  {
    hide Pair, Known, Labelled, Harmless, Post, AllThere;
    PairFits(a, b, x);
    forall d | d in post
      ensures Known(x, d) && (d == Late(x) ==> Gate(x) in ps) && (d == Gate(x) ==> AllThere(x, ps))
    {
      assert SuccessorOf(a, b, ps, d) && Harmless(a, b, d);
      var t, tuple :| t in a.transitions && TupleFrom(ps, t, tuple) && d == (t.rhs, Post(b, t.symbol, tuple));
      if t == Transition(x.ls, 0, x.top) {
        TupleKnown(a, b, x, tuple);
      } else {
        SuccessorKnown(a, b, x, ps, t, tuple);
      }
    }
  }

  lemma CalmStart(a: Automaton, b: Automaton, x: Names, n: nat, rel: Relation, m: Moment, post: seq<Element>)
    requires Pair(a, b, x) && Under(x, n) && Identity(rel, n) && StartsWith(a, b, rel, m, post)
    ensures Calm(x, m)
  {
    hide Pair, Offered, Identity, Known, Under, Grown, Post;
    PairFits(a, b, x);
    GrownKnown(a, b, x, {}, post);
    KnownStays(x, n, rel, {}, {}, m.processed, m.pending, Given(post));
    forall e | Early(x, e)
      ensures e in Given(post)
    {
      EarlyOffered(a, b, x, e, post);
    }
    assert Twice(x) in x.ls && !AllThere(x, {});
  }

  lemma EarlyOffered(a: Automaton, b: Automaton, x: Names, e: Element, post: seq<Element>)
    requires Pair(a, b, x) && Early(x, e)
    requires forall t :: t in a.transitions && t.lhs == [] ==> (t.rhs, Post(b, t.symbol, [])) in post
    ensures e in post
  {
    var i :| 0 <= i < |x.ls| && x.ls[i] == e.0;
    assert LeftHas(x, LeftLeaf(x, i));
    LeafPost(a, b, x, i);
  }

  lemma CalmTurn(a: Automaton, b: Automaton, x: Names, n: nat, rel: Relation, m: Moment, e: Element, post: seq<Element>,
                 m': Moment)
    requires Pair(a, b, x) && Under(x, n) && Identity(rel, n) && Calm(x, m) && Turns(a, b, rel, m, e, post, m')
    ensures Calm(x, m')
  {
    hide Pair, Identity, Known, MetAll, Offered, Under, Grown, AllThere;
    PairFits(a, b, x);
    var ps := m.processed + {e};
    GrownKnown(a, b, x, ps, post);
    KnownStays(x, n, rel, ps, m.pending - {e}, m'.processed, m'.pending, Given(post));
    assert ps + (m.pending - {e}) == m.processed + m.pending;
    CalmStays(x, m, e, Given(post), m');
  }

  lemma CalmStays(x: Names, m: Moment, e: Element, given: set<Element>, m': Moment)
    requires Fits(x) && Calm(x, m) && Lowest(m, e)
    requires forall d :: d in given ==>
      && Known(x, d)
      && (d == Late(x) ==> Gate(x) in m.processed + {e}) && (d == Gate(x) ==> AllThere(x, m.processed + {e}))
    requires m'.processed == m.processed + {e} && m'.processed !! m'.pending
    requires m'.processed + m'.pending == m.processed + m.pending + given
    ensures Calm(x, m')
  {
    hide Known;
    if Gate(x) in m'.processed + m'.pending || Late(x) in m'.processed + m'.pending {
      forall d | Early(x, d)
        ensures d in m'.processed
      {
        if !(Gate(x) in m.processed + m.pending || Late(x) in m.processed + m.pending) {
          assert AllThere(x, m.processed + {e});
          assert (d.0, EarlySet(x, d.0)) in m.processed + {e};
        }
      }
    }
  }

  lemma {:induction false} SearchCalm(a: Automaton, b: Automaton, x: Names, n: nat, rel: Relation, ms: seq<Moment>)
    requires Pair(a, b, x) && Under(x, n) && Identity(rel, n) && Search(a, b, rel, ms)
    ensures x.first < |x.ls| && Calm(x, ms[|ms| - 1])
    decreases |ms|
  {
    hide Pair, Calm, StartsWith, Turns, Identity, Under, Minimal;
    PairFits(a, b, x);
    if |ms| == 1 {
      var post :| StartsWith(a, b, rel, ms[0], post);
      CalmStart(a, b, x, n, rel, ms[0], post);
    } else {
      SearchLess(a, b, rel, ms);
      SearchCalm(a, b, x, n, rel, ms[..|ms| - 1]);
      var e, post :| Turns(a, b, rel, ms[|ms| - 2], e, post, ms[|ms| - 1]);
      CalmTurn(a, b, x, n, rel, ms[|ms| - 2], e, post, ms[|ms| - 1]);
    }
  }

  /** However the states are numbered and the search goes, it is not refuted. */
  lemma NeverRefuted(a: Automaton, b: Automaton, x: Names, n: nat)
    requires Pair(a, b, x) && Under(x, n)
    ensures !Answers(a, b, n, false)
  {
    hide Pair, Calm, Search, Harm, LeafRefutes, Lowest, Under;
    var rel := IdentityRelation(n);
    PairFits(a, b, x);
    NoLeafRefutes(a, b, x);
    forall ms: seq<Moment> | ms != [] && Search(a, b, rel, ms)
      ensures !Refutes(a, b, ms[|ms| - 1])
    {
      SearchCalm(a, b, x, n, rel, ms);
      forall e | Lowest(ms[|ms| - 1], e)
        ensures !Harm(a, b, ms[|ms| - 1].processed + {e}, e.0, e.1)
      {
        NoHarm(a, b, x, ms[|ms| - 1], e);
      }
    }
    SearchesNotEmpty(a, b, rel);
  }

  lemma SearchesNotEmpty(a: Automaton, b: Automaton, rel: Relation)
    ensures !Search(a, b, rel, [])
  {}

  // ---------- whatever numbers the states get in the union ----------

  function Renamed(x: Names, f: Numbering, g: Numbering): Names {
    var o := |f|;
    Names(Translated(g, o, x.ls), x.syms, Translated(g, o, x.ds), x.first, At(g, o, x.gate), At(g, o, x.top),
          At(f, 0, x.yes), At(f, 0, x.other), At(f, 0, x.early), At(f, 0, x.later), At(f, 0, x.both))
  }

  /** Every state has a number, and no two have the same. */
  ghost predicate NamesNumbered(x: Names, f: Numbering, g: Numbering) {
    && Dense(f) && Dense(g)
    && (forall p :: p in x.ls || p in x.ds ==> p in g) && x.gate in g && x.top in g
    && x.yes in f && x.other in f && x.early in f && x.later in f && x.both in f
  }

  lemma RenamedFits(x: Names, f: Numbering, g: Numbering)
    requires Fits(x) && NamesNumbered(x, f, g)
    ensures Fits(Renamed(x, f, g)) && Under(Renamed(x, f, g), |f| + |g|)
  {
    var y := Renamed(x, f, g);
    var j :| x.first < j < |x.ls| && x.ls[j] == x.ls[x.first];
    assert y.ls[j] == y.ls[y.first];
    ListedAlike(g, |f|, x.ds, x.ls);
    RenamedApart(x, f, g);
  }

  lemma ListedAlike(g: Numbering, offset: nat, ds: seq<nat>, ls: seq<nat>)
    requires forall p :: p in ds <==> p in ls
    ensures forall p :: p in Translated(g, offset, ds) <==> p in Translated(g, offset, ls)
  {
    forall p
      ensures p in Translated(g, offset, ds) <==> p in Translated(g, offset, ls)
    {
      ListedAlso(g, offset, ds, ls, p);
      ListedAlso(g, offset, ls, ds, p);
    }
  }

  lemma ListedAlso(g: Numbering, offset: nat, ds: seq<nat>, ls: seq<nat>, p: nat)
    requires forall q :: q in ds ==> q in ls
    ensures p in Translated(g, offset, ds) ==> p in Translated(g, offset, ls)
  {
    if i :| 0 <= i < |ds| && Translated(g, offset, ds)[i] == p {
      assert ds[i] in ds;
      var k :| 0 <= k < |ls| && ls[k] == ds[i];
      assert Translated(g, offset, ls)[k] == p;
    }
  }

  lemma RenamedApart(x: Names, f: Numbering, g: Numbering)
    requires Fits(x) && NamesNumbered(x, f, g)
    ensures
      var y := Renamed(x, f, g);
      && FirstAt(y.ls, y.first) && y.gate !in y.ls && y.top !in y.ls && y.gate != y.top
      && (forall i, j :: 0 <= i < |y.ls| && 0 <= j < |y.ls| ==> (y.ls[i] == y.ls[j] <==> x.ls[i] == x.ls[j]))
      && y.early != y.later && y.early != y.both && y.later != y.both && Under(y, |f| + |g|)
  {
    assert forall i :: 0 <= i < |x.ls| ==> x.ls[i] in x.ls;
  }

  lemma LeftCopied(a: Automaton, a': Automaton, x: Names, f: Numbering, g: Numbering, keep: bool)
    requires Fits(x) && IsLeft(a, x) && NamesNumbered(x, f, g) && Copied(g, |f|, a, a', keep)
    ensures IsLeft(a', Renamed(x, f, g))
  {
    var y := Renamed(x, f, g);
    forall t
      ensures t in a'.transitions <==> LeftHas(y, t)
    {
      if t in a'.transitions {
        assert IsCopy(g, |f|, a.transitions, t);
        var u :| u in a.transitions && t == CopyOf(g, |f|, u);
        LeftRenamed(x, f, g, u);
      } else if LeftHas(y, t) {
        LeftFound(x, f, g, a, t);
      }
    }
  }

  lemma LeftRenamed(x: Names, f: Numbering, g: Numbering, u: Transition)
    requires Fits(x) && NamesNumbered(x, f, g) && LeftHas(x, u)
    ensures LeftHas(Renamed(x, f, g), CopyOf(g, |f|, u))
  {
    var y := Renamed(x, f, g);
    if i :| 0 <= i < |x.ls| && u == LeftLeaf(x, i) {
      assert CopyOf(g, |f|, u) == LeftLeaf(y, i);
    } else if u == Transition([x.gate], 1, Twice(x)) {
      assert CopyOf(g, |f|, u) == Transition([y.gate], 1, Twice(y));
    }
  }

  lemma LeftFound(x: Names, f: Numbering, g: Numbering, a: Automaton, t: Transition)
    requires Fits(x) && NamesNumbered(x, f, g) && IsLeft(a, x) && LeftHas(Renamed(x, f, g), t)
    ensures exists u :: u in a.transitions && CopyOf(g, |f|, u) == t
  {
    var y := Renamed(x, f, g);
    var u;
    if i :| 0 <= i < |y.ls| && t == LeftLeaf(y, i) {
      u := LeftLeaf(x, i);
    } else if t == Transition([y.gate], 1, Twice(y)) {
      u := Transition([x.gate], 1, Twice(x));
      assert CopyOf(g, |f|, u) == t;
    } else if t == Transition(y.ds, 2, y.gate) {
      u := Transition(x.ds, 2, x.gate);
    } else {
      u := Transition(x.ls, 0, x.top);
    }
    assert LeftHas(x, u) && CopyOf(g, |f|, u) == t;
  }

  lemma RightCopied(b: Automaton, b': Automaton, x: Names, f: Numbering, g: Numbering)
    requires Fits(x) && IsRight(b, x) && NamesNumbered(x, f, g) && Copied(f, 0, b, b', true)
    ensures IsRight(b', Renamed(x, f, g))
  {
    hide RightHas;
    var y := Renamed(x, f, g);
    forall t
      ensures t in b'.transitions <==> RightHas(y, t)
    {
      if t in b'.transitions {
        assert IsCopy(f, 0, b.transitions, t);
        var u :| u in b.transitions && t == CopyOf(f, 0, u);
        RightRenamed(x, f, g, u);
      } else if RightHas(y, t) {
        RightFound(x, f, g, b, t);
      }
    }
  }

  /** Which states a right-hand place has does not depend on the numbers. */
  lemma PlacesRenamed(x: Names, f: Numbering, g: Numbering)
    requires Fits(x) && NamesNumbered(x, f, g)
    ensures
      var y := Renamed(x, f, g);
      && Gates(y) == Translated(f, 0, Gates(x)) && AllEarly(y) == Translated(f, 0, AllEarly(x))
      && LateFirst(y) == Translated(f, 0, LateFirst(x))
      && forall i :: 0 <= i < |x.ls| ==> RightLeaf(y, i) == CopyOf(f, 0, RightLeaf(x, i))
  {
    var y := Renamed(x, f, g);
    forall i | 0 <= i < |x.ls|
      ensures y.ls[i] == Twice(y) <==> x.ls[i] == Twice(x)
    {
      assert x.ls[i] in x.ls && Twice(x) in x.ls;
    }
    forall i | 0 <= i < |x.ds|
      ensures y.ds[i] == Twice(y) <==> x.ds[i] == Twice(x)
    {
      assert x.ds[i] in x.ds && Twice(x) in x.ls;
    }
  }

  lemma OneTranslated(f: Numbering, q: nat)
    ensures Translated(f, 0, [q]) == [At(f, 0, q)] && Translated(f, 0, []) == []
  {}

  lemma RightRenamed(x: Names, f: Numbering, g: Numbering, u: Transition)
    requires Fits(x) && NamesNumbered(x, f, g) && RightHas(x, u)
    ensures RightHas(Renamed(x, f, g), CopyOf(f, 0, u))
  {
    hide NamesNumbered, Translated, Gates, AllEarly, LateFirst;
    var y := Renamed(x, f, g);
    PlacesRenamed(x, f, g);
    OneTranslated(f, x.other);
    if i :| 0 <= i < |x.ls| && u == RightLeaf(x, i) {
      assert CopyOf(f, 0, u) == RightLeaf(y, i);
    }
  }

  lemma RightFound(x: Names, f: Numbering, g: Numbering, b: Automaton, t: Transition)
    requires Fits(x) && NamesNumbered(x, f, g) && IsRight(b, x) && RightHas(Renamed(x, f, g), t)
    ensures exists u :: u in b.transitions && CopyOf(f, 0, u) == t
  {
    hide NamesNumbered, Translated, Gates, AllEarly, LateFirst;
    var y := Renamed(x, f, g);
    PlacesRenamed(x, f, g);
    OneTranslated(f, x.other);
    var u;
    if i :| 0 <= i < |y.ls| && t == RightLeaf(y, i) {
      u := RightLeaf(x, i);
    } else if t == Transition([], y.syms[y.first], y.both) {
      u := Transition([], x.syms[x.first], x.both);
    } else if t == Transition(Gates(y), 2, y.other) {
      u := Transition(Gates(x), 2, x.other);
    } else if t == Transition([y.other], 1, y.later) {
      u := Transition([x.other], 1, x.later);
    } else if t == Transition([y.other], 1, y.both) {
      u := Transition([x.other], 1, x.both);
    } else if t == Transition(AllEarly(y), 0, y.yes) {
      u := Transition(AllEarly(x), 0, x.yes);
    } else {
      u := Transition(LateFirst(x), 0, x.yes);
    }
    assert RightHas(x, u) && CopyOf(f, 0, u) == t;
  }

  lemma PairNumbered(a: Automaton, b: Automaton, x: Names, f: Numbering, g: Numbering)
    requires Pair(a, b, x) && Dense(f) && Dense(g) && HasAll(f, b.transitions) && HasAll(g, a.transitions)
    ensures NamesNumbered(x, f, g)
  {
    var t, u := Transition(x.ls, 0, x.top), Transition(x.ds, 2, x.gate);
    assert LeftHas(x, t) && LeftHas(x, u);
    assert Has(g, t) && Has(g, u);
    var v, w, y, z := RightLeaf(x, x.first), Transition([x.other], 1, x.later), Transition([x.other], 1, x.both),
      Transition(AllEarly(x), 0, x.yes);
    assert RightHas(x, v) && RightHas(x, w) && RightHas(x, y) && RightHas(x, z);
    assert Has(f, v) && Has(f, w) && Has(f, y) && Has(f, z);
    assert w.lhs[0] == x.other;
  }

  /** In whatever order their transitions are listed, and whether the union keeps final states of the left one or not,
      such automata get an affirmative answer. */
  lemma MisledAnswer(a: Automaton, b: Automaton, x: Names, keep: bool, r: bool)
    requires Pair(a, b, x) && Verdict(a, b, keep, r)
    ensures r
  {
    hide Answers, LeftPart, RightPart, States, Joined, Pair, Renamed, Under;
    var c, f, fs, g, gs :|
      Joined(a, b, c, f, fs, g, gs, keep) && Answers(LeftPart(c, |f|), RightPart(c, |f|), |States(c)|, r);
    PairCopied(a, b, x, c, f, fs, g, gs, keep);
    NeverRefuted(LeftPart(c, |f|), RightPart(c, |f|), Renamed(x, f, g), |States(c)|);
  }

  /** The parts of the union are such automata, too. */
  lemma PairCopied(a: Automaton, b: Automaton, x: Names, c: Automaton, f: Numbering, fs: seq<nat>, g: Numbering,
                   gs: seq<nat>, keep: bool)
    requires Pair(a, b, x) && Joined(a, b, c, f, fs, g, gs, keep)
    ensures Pair(LeftPart(c, |f|), RightPart(c, |f|), Renamed(x, f, g)) && Under(Renamed(x, f, g), |States(c)|)
  {
    hide LeftPart, RightPart, States, Joined, Split, NamesNumbered, Renamed, Under, Fits, IsLeft, IsRight, Dense,
      HasAll, IsCopy;
    SameLength(a, b, x);
    UnionFit(a, b, c, f, fs, g, gs, keep);
    PairNumbered(a, b, x, f, g);
    RenamedFits(x, f, g);
    RenamedLength(x, f, g);
    LeftCopied(a, LeftPart(c, |f|), x, f, g, keep);
    RightCopied(b, RightPart(c, |f|), x, f, g);
  }

  lemma RenamedLength(x: Names, f: Numbering, g: Numbering)
    ensures
      var y := Renamed(x, f, g);
      |y.ls| == |x.ls| && y.syms == x.syms && y.first == x.first
  {}

  // ---------- exactly when affirmative answers can be relied on ----------

  /** The states once each, at their first places. */
  function Firsts(ls: seq<nat>): seq<nat> {
    if ls == [] then []
    else
      var rest := Firsts(ls[..|ls| - 1]);
      if ls[|ls| - 1] in rest then rest else rest + [ls[|ls| - 1]]
  }

  lemma {:induction false} FirstsMeans(ls: seq<nat>)
    ensures Distinct(Firsts(ls)) && forall p :: p in Firsts(ls) <==> p in ls
    decreases |ls|
  {
    if ls != [] {
      FirstsMeans(ls[..|ls| - 1]);
      assert ls == ls[..|ls| - 1] + [ls[|ls| - 1]];
    }
  }

  function Named(lhs: seq<nat>, first: nat): Names {
    Names(lhs, seq(|lhs|, i requires 0 <= i < |lhs| => lhs[i] + 3), Firsts(lhs), first, BoundAbove(lhs) + 1,
          BoundAbove(lhs) + 2, 0, 1, 2, 3, 4)
  }

  /** The first place of a state that is listed again. */
  ghost predicate Repeats(lhs: seq<nat>, first: nat) {
    FirstAt(lhs, first) && exists j :: first < j < |lhs| && lhs[j] == lhs[first]
  }

  lemma NamedFits(lhs: seq<nat>, first: nat)
    requires Repeats(lhs, first)
    ensures Fits(Named(lhs, first))
  {
    FirstsMeans(lhs);
  }

  function MisledLeft(x: Names): Automaton
    requires x.first < |x.ls| == |x.syms|
  {
    Automaton({x.top}, seq(|x.ls|, i requires 0 <= i < |x.ls| => LeftLeaf(x, i)) +
      [Transition(x.ds, 2, x.gate), Transition([x.gate], 1, Twice(x)), Transition(x.ls, 0, x.top)])
  }

  function MisledRight(x: Names): Automaton
    requires x.first < |x.ls| == |x.syms|
  {
    Automaton({x.yes}, seq(|x.ls|, i requires 0 <= i < |x.ls| => RightLeaf(x, i)) +
      [Transition([], x.syms[x.first], x.both), Transition(Gates(x), 2, x.other), Transition([x.other], 1, x.later),
       Transition([x.other], 1, x.both), Transition(AllEarly(x), 0, x.yes), Transition(LateFirst(x), 0, x.yes)])
  }

  lemma MisledPair(x: Names)
    requires Fits(x)
    ensures Pair(MisledLeft(x), MisledRight(x), x)
  {
    var left, right := seq(|x.ls|, i requires 0 <= i < |x.ls| => LeftLeaf(x, i)),
      seq(|x.ls|, i requires 0 <= i < |x.ls| => RightLeaf(x, i));
    forall i | 0 <= i < |x.ls|
      ensures LeftLeaf(x, i) in left && RightLeaf(x, i) in right
    {
      assert left[i] == LeftLeaf(x, i) && right[i] == RightLeaf(x, i);
    }
  }

  /** No left-hand side but `lhs` repeats a state. */
  predicate RepeatsOnly(a: Automaton, lhs: seq<nat>) {
    forall t :: t in a.transitions ==> Distinct(t.lhs) || t.lhs == lhs
  }

  /** An affirmative answer means tracking, and inclusion if final states are kept, whatever the automata in which only
      `lhs` may repeat a state. */
  ghost predicate AffirmsRightly(lhs: seq<nat>, keep: bool) {
    forall a, b :: Ranked(a, b) && RepeatsOnly(a, lhs) && Verdict(a, b, keep, true) ==>
      Tracked(a, b) && (keep ==> Included(a, b))
  }

  lemma NamedRepeatsOnly(lhs: seq<nat>, first: nat)
    requires Repeats(lhs, first)
    ensures RepeatsOnly(MisledLeft(Named(lhs, first)), lhs)
  {
    var x := Named(lhs, first);
    FirstsMeans(lhs);
    NamedFits(lhs, first);
    MisledPair(x);
    forall t | t in MisledLeft(x).transitions
      ensures Distinct(t.lhs) || t.lhs == lhs
    {
      assert LeftHas(x, t);
    }
  }

  /** Affirmative answers can be relied on if and only if the left-hand side repeats no state; as the check is written
      (`keep` is false), or if its union kept the final states of both automata. */
  lemma AffirmsRightlyIffDistinct(lhs: seq<nat>, keep: bool)
    ensures AffirmsRightly(lhs, keep) <==> Distinct(lhs)
  {
    hide Verdict, Included, Tracked, MisledLeft, MisledRight, Pair, Named, Repeats;
    if Distinct(lhs) {
      forall a, b | RepeatsOnly(a, lhs) && Verdict(a, b, keep, true)
        ensures Tracked(a, b) && (keep ==> Included(a, b))
      {
        assert LinearLhs(a);
        VerdictMeans(a, b, keep, true);
      }
    } else {
      var first := SomeRepeats(lhs);
      var x := Named(lhs, first);
      NamedFits(lhs, first);
      var a, b := MisledLeft(x), MisledRight(x);
      MisledPair(x);
      PairRanked(a, b, x);
      NamedRepeatsOnly(lhs, first);
      MisledNotTracked(a, b, x);
      var r := VerdictExists(a, b, keep);
      MisledAnswer(a, b, x, keep, r);
    }
  }

  lemma SomeRepeats(lhs: seq<nat>) returns (first: nat)
    requires !Distinct(lhs)
    ensures Repeats(lhs, first)
  {
    var i, j :| 0 <= i < j < |lhs| && lhs[i] == lhs[j];
    first := FirstPlace(lhs, lhs[i], i);
  }

  /** The check itself, for every left-hand side that repeats a state: it affirms, although the right automaton does not
      label all that the left one accepts. */
  method MisledVerdict(lhs: seq<nat>, first: nat) returns (r: bool)
    requires Repeats(lhs, first)
    ensures r && Fits(Named(lhs, first))
    ensures
      var a, b := MisledLeft(Named(lhs, first)), MisledRight(Named(lhs, first));
      !Tracked(a, b) && !Included(a, b)
  {
    hide Verdict, Included, Tracked, Pair, Named, Repeats, Trim;
    NamedFits(lhs, first);
    var x := Named(lhs, first);
    MisledPair(x);
    PairRanked(MisledLeft(x), MisledRight(x), x);
    MisledNotTracked(MisledLeft(x), MisledRight(x), x);
    r := Inclusion.Subseteq(MisledLeft(x), MisledRight(x));
    MisledAnswer(MisledLeft(x), MisledRight(x), x, false, r);
  }
}
