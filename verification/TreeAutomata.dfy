/** Bottom-up tree automata, the trees they reach, and the facts about languages and macro-states
    on which the antichain inclusion check rests.  An automaton is its final states plus a finite
    list of transitions, listed in the order in which a traversal meets them. */
module TreeAutomata {
  import opened Collections

  datatype Tree = Node(symbol: nat, children: seq<Tree>)

  datatype Transition = Transition(lhs: seq<nat>, symbol: nat, rhs: nat)

  datatype Automaton = Automaton(finals: set<nat>, transitions: seq<Transition>)

  /** A state paired with a macro-state: a set of states of the other automaton. */
  type Element = (nat, set<nat>)

  ghost predicate Fires(t: Transition, symbol: nat, tuple: seq<set<nat>>) {
    && t.symbol == symbol
    && |t.lhs| == |tuple|
    && forall i :: 0 <= i < |tuple| ==> t.lhs[i] in tuple[i]
  }

  /** The states that `m` reaches over `symbol` from one macro-state per child. */
  ghost function Post(m: Automaton, symbol: nat, tuple: seq<set<nat>>): set<nat> {
    set t | t in m.transitions && Fires(t, symbol, tuple) :: t.rhs
  }

  /** All states that `m` can assign to the root of `t`. */
  ghost function Reached(m: Automaton, t: Tree): set<nat>
    decreases t, 1
  {
    Post(m, t.symbol, ReachedAll(m, t.children))
  }

  ghost function ReachedAll(m: Automaton, ts: seq<Tree>): (r: seq<set<nat>>)
    ensures |r| == |ts|
    ensures forall i :: 0 <= i < |ts| ==> r[i] == Reached(m, ts[i])
    decreases ts, 0
  {
    if ts == [] then [] else [Reached(m, ts[0])] + ReachedAll(m, ts[1..])
  }

  /** A run of `m` labels the root of `t` with `q`: by a transition with its symbol, whose states runs label the
      children with. */
  ghost predicate Labels(m: Automaton, t: Tree, q: nat)
    decreases t
  {
    exists tr :: tr in m.transitions && tr.rhs == q && LabelsBy(m, t, tr)
  }

  ghost predicate LabelsBy(m: Automaton, t: Tree, tr: Transition)
    decreases t, 0
  {
    && tr.symbol == t.symbol && |tr.lhs| == |t.children|
    && forall i :: 0 <= i < |t.children| ==> Labels(m, t.children[i], tr.lhs[i])
  }

  lemma {:induction false} ReachedIsLabelled(m: Automaton, t: Tree, q: nat)
    ensures q in Reached(m, t) <==> Labels(m, t, q)
    decreases t
  {
    forall tr | tr in m.transitions
      ensures Fires(tr, t.symbol, ReachedAll(m, t.children)) <==> LabelsBy(m, t, tr)
    {
      if |tr.lhs| == |t.children| {
        forall i | 0 <= i < |t.children|
          ensures tr.lhs[i] in Reached(m, t.children[i]) <==> Labels(m, t.children[i], tr.lhs[i])
        {
          ReachedIsLabelled(m, t.children[i], tr.lhs[i]);
        }
      }
    }
  }

  ghost predicate Accepts(m: Automaton, t: Tree) {
    exists q :: q in Reached(m, t) && q in m.finals
  }

  ghost predicate Included(a: Automaton, b: Automaton) {
    forall t :: Accepts(a, t) ==> Accepts(b, t)
  }

  /** Whatever tree `a` can label at all, `b` can label too. */
  ghost predicate Tracked(a: Automaton, b: Automaton) {
    forall t :: Reached(a, t) != {} ==> Reached(b, t) != {}
  }

  /** No transition lists the same child state twice. */
  predicate LinearLhs(m: Automaton) {
    forall t :: t in m.transitions ==> Distinct(t.lhs)
  }

  /** Each label has one arity, shared by both automata. */
  predicate Ranked(a: Automaton, b: Automaton) {
    forall t, u :: t in a.transitions && u in b.transitions && t.symbol == u.symbol ==> |t.lhs| == |u.lhs|
  }

  lemma PostMonotone(m: Automaton, symbol: nat, small: seq<set<nat>>, big: seq<set<nat>>)
    requires |small| == |big|
    requires forall i :: 0 <= i < |small| ==> small[i] <= big[i]
    ensures Post(m, symbol, small) <= Post(m, symbol, big)
  {
    forall t | t in m.transitions && Fires(t, symbol, small)
      ensures Fires(t, symbol, big)
    {}
  }

  // ---------- what a saturated set of elements says about all trees ----------

  /** Some element of `es` has the same state and a smaller macro-state. */
  ghost predicate Covers(es: set<Element>, e: Element) {
    exists s :: (e.0, s) in es && s <= e.1
  }

  ghost predicate TupleFrom(es: set<Element>, t: Transition, tuple: seq<set<nat>>) {
    && |tuple| == |t.lhs|
    && forall i :: 0 <= i < |tuple| ==> (t.lhs[i], tuple[i]) in es
  }

  /** Every successor of a tuple over `from` is covered by `by`. */
  ghost predicate Closed(a: Automaton, b: Automaton, from: set<Element>, cover: set<Element>) {
    forall t, tuple :: t in a.transitions && TupleFrom(from, t, tuple) ==>
      Covers(cover, (t.rhs, Post(b, t.symbol, tuple)))
  }

  /** The element neither stops tracking nor accepts alone. */
  predicate Harmless(a: Automaton, b: Automaton, e: Element) {
    && e.1 != {}
    && (e.0 in a.finals ==> exists q :: q in e.1 && q in b.finals)
  }

  ghost predicate AllHarmless(a: Automaton, b: Automaton, es: set<Element>) {
    forall e :: e in es ==> Harmless(a, b, e)
  }

  /** The element is what some tree really leads to. */
  ghost predicate Witnessed(a: Automaton, b: Automaton, e: Element) {
    exists t :: e.0 in Reached(a, t) && e.1 == Reached(b, t)
  }

  /** A tree that `a` can label and that `b` either cannot label or fails to accept beside `a`. */
  ghost predicate Distinguishes(a: Automaton, b: Automaton, t: Tree) {
    || (Accepts(a, t) && !Accepts(b, t))
    || (Reached(a, t) != {} && Reached(b, t) == {})
  }

  lemma {:induction false} SaturationCoversTree(a: Automaton, b: Automaton, es: set<Element>, t: Tree, q: nat)
    requires Closed(a, b, es, es) && q in Reached(a, t)
    ensures Covers(es, (q, Reached(b, t)))
    decreases t
  {
    var sets := ReachedAll(a, t.children);
    var tr :| tr in a.transitions && Fires(tr, t.symbol, sets) && tr.rhs == q;
    forall i | 0 <= i < |t.children|
      ensures Covers(es, (tr.lhs[i], Reached(b, t.children[i])))
    {
      SaturationCoversTree(a, b, es, t.children[i], tr.lhs[i]);
    }
    var tuple := PickTuple(es, tr.lhs, ReachedAll(b, t.children));
    assert TupleFrom(es, tr, tuple);
    PostMonotone(b, t.symbol, tuple, ReachedAll(b, t.children));
  }

  lemma {:induction false} PickTuple(es: set<Element>, lhs: seq<nat>,
                                     sets: seq<set<nat>>) returns (tuple: seq<set<nat>>)
    requires |lhs| == |sets|
    requires forall i :: 0 <= i < |lhs| ==> Covers(es, (lhs[i], sets[i]))
    ensures |tuple| == |lhs|
    ensures forall i :: 0 <= i < |lhs| ==> (lhs[i], tuple[i]) in es && tuple[i] <= sets[i]
  {
    if lhs == [] {
      tuple := [];
    } else {
      assert Covers(es, (lhs[0], sets[0]));
      var s :| (lhs[0], s) in es && s <= sets[0];
      forall i | 0 <= i < |lhs[1..]|
        ensures Covers(es, (lhs[1..][i], sets[1..][i]))
      {
        assert lhs[1..][i] == lhs[i + 1] && sets[1..][i] == sets[i + 1];
      }
      var rest := PickTuple(es, lhs[1..], sets[1..]);
      tuple := [s] + rest;
    }
  }

  /** A closed set of harmless elements proves inclusion, and that `b` tracks `a`. */
  lemma SaturationProvesInclusion(a: Automaton, b: Automaton, es: set<Element>)
    requires Closed(a, b, es, es) && AllHarmless(a, b, es)
    ensures Included(a, b) && Tracked(a, b)
  {
    forall t | Accepts(a, t)
      ensures Accepts(b, t)
    {
      var q :| q in Reached(a, t) && q in a.finals;
      SaturationCoversTree(a, b, es, t, q);
      var s :| (q, s) in es && s <= Reached(b, t);
      assert Harmless(a, b, (q, s));
    }
    forall t | Reached(a, t) != {}
      ensures Reached(b, t) != {}
    {
      var q :| q in Reached(a, t);
      SaturationCoversTree(a, b, es, t, q);
      var s :| (q, s) in es && s <= Reached(b, t);
      assert Harmless(a, b, (q, s));
      var p :| p in s;
    }
  }

  /** A successor of witnessed elements is witnessed. */
  lemma SuccessorWitnessed(a: Automaton, b: Automaton, es: set<Element>, t: Transition, tuple: seq<set<nat>>)
    requires t in a.transitions && TupleFrom(es, t, tuple)
    requires forall e :: e in es ==> Witnessed(a, b, e)
    ensures Witnessed(a, b, (t.rhs, Post(b, t.symbol, tuple)))
  {
    forall i | 0 <= i < |tuple|
      ensures Witnessed(a, b, (t.lhs[i], tuple[i]))
    {
      assert (t.lhs[i], tuple[i]) in es;
    }
    var ts := WitnessTrees(a, b, t.lhs, tuple);
    var tree := Node(t.symbol, ts);
    assert ReachedAll(b, ts) == tuple;
    assert Fires(t, t.symbol, ReachedAll(a, ts));
    assert t.rhs in Reached(a, tree);
    assert Reached(b, tree) == Post(b, t.symbol, tuple);
  }

  lemma {:induction false} WitnessTrees(a: Automaton, b: Automaton, lhs: seq<nat>,
                                        tuple: seq<set<nat>>) returns (ts: seq<Tree>)
    requires |lhs| == |tuple|
    requires forall i :: 0 <= i < |lhs| ==> Witnessed(a, b, (lhs[i], tuple[i]))
    ensures |ts| == |lhs|
    ensures forall i :: 0 <= i < |lhs| ==> lhs[i] in Reached(a, ts[i]) && tuple[i] == Reached(b, ts[i])
  {
    if lhs == [] {
      ts := [];
    } else {
      assert Witnessed(a, b, (lhs[0], tuple[0]));
      var t :| lhs[0] in Reached(a, t) && tuple[0] == Reached(b, t);
      forall i | 0 <= i < |lhs[1..]|
        ensures Witnessed(a, b, (lhs[1..][i], tuple[1..][i]))
      {
        assert lhs[1..][i] == lhs[i + 1] && tuple[1..][i] == tuple[i + 1];
      }
      var rest := WitnessTrees(a, b, lhs[1..], tuple[1..]);
      ts := [t] + rest;
    }
  }

  /** A witnessed element that is not harmless comes from a tree that tells the automata apart. */
  lemma HarmfulWitnessDistinguishes(a: Automaton, b: Automaton, e: Element)
    requires Witnessed(a, b, e) && !Harmless(a, b, e)
    ensures exists t :: Distinguishes(a, b, t)
  {
    var t :| e.0 in Reached(a, t) && e.1 == Reached(b, t);
    if e.1 == {} {
      assert Distinguishes(a, b, t);
    } else {
      assert !Accepts(b, t);
      assert Distinguishes(a, b, t);
    }
  }

  lemma DistinguishedMeansNot(a: Automaton, b: Automaton)
    ensures (exists t :: Distinguishes(a, b, t)) <==> !(Included(a, b) && Tracked(a, b))
  {
    if exists t :: Distinguishes(a, b, t) {
      var t :| Distinguishes(a, b, t);
    }
    if !Included(a, b) {
      var t :| Accepts(a, t) && !Accepts(b, t);
      assert Distinguishes(a, b, t);
    }
    if !Tracked(a, b) {
      var t :| Reached(a, t) != {} && Reached(b, t) == {};
      assert Distinguishes(a, b, t);
    }
  }

  // ---------- tuples that the transition index lets the search see ----------

  /** `i` is the first place where the child state `lhs[i]` occurs; transitions are indexed there only. */
  predicate FirstAt(lhs: seq<nat>, i: nat) {
    i < |lhs| && forall j :: 0 <= j < i ==> lhs[j] != lhs[i]
  }

  /** The component processed last stands at an indexed place, so that processing it meets the tuple. */
  ghost predicate Anchored(age: map<Element, nat>, lhs: seq<nat>, tuple: seq<set<nat>>)
    requires |lhs| == |tuple|
    requires forall i :: 0 <= i < |lhs| ==> (lhs[i], tuple[i]) in age
  {
    || lhs == []
    || exists i: nat ::
      FirstAt(lhs, i) && (forall j :: 0 <= j < |lhs| ==> age[(lhs[j], tuple[j])] <= age[(lhs[i], tuple[i])])
  }

  /** As `Closed`, but only for the tuples that the index lets the search see. */
  ghost predicate AnchoredClosed(a: Automaton, b: Automaton, age: map<Element, nat>, from: set<Element>,
                                 cover: set<Element>) {
    && from <= age.Keys
    && forall t, tuple :: t in a.transitions && TupleFrom(from, t, tuple) && Anchored(age, t.lhs, tuple) ==>
         Covers(cover, (t.rhs, Post(b, t.symbol, tuple)))
  }

  /** Elements are processed one at a time. */
  ghost predicate Ordered(age: map<Element, nat>) {
    forall d, e :: d in age && e in age && age[d] == age[e] ==> d == e
  }

  /** Processing what can be stored, in whatever order, meets every tuple exactly for
      the left-hand sides without repetition. */
  lemma EveryTupleMetIffDistinct(lhs: seq<nat>)
    ensures Distinct(lhs) <==> EveryTupleMet(lhs)
  {
    if Distinct(lhs) {
      forall age: map<Element, nat>, tuple: seq<set<nat>> | OverAge(age, lhs, tuple)
        ensures Anchored(age, lhs, tuple)
      {
        DistinctAnchored(age, lhs, tuple);
      }
    } else {
      var i, j :| 0 <= i < j < |lhs| && lhs[i] == lhs[j];
      RepetitionMissesTuple(lhs, i, j);
    }
  }

  /** What the store may hold of one state: macro-states that are not empty and of which none contains another. */
  ghost predicate Storable(age: map<Element, nat>) {
    && (forall d :: d in age ==> d.1 != {})
    && forall d, e :: d in age && e in age && d.0 == e.0 && d != e ==> !(d.1 <= e.1)
  }

  /** Whatever is processed in whatever order, every tuple is anchored. */
  ghost predicate EveryTupleMet(lhs: seq<nat>) {
    forall age: map<Element, nat>, tuple: seq<set<nat>> ::
      Ordered(age) && Storable(age) && OverAge(age, lhs, tuple) ==> Anchored(age, lhs, tuple)
  }

  ghost predicate OverAge(age: map<Element, nat>, lhs: seq<nat>, tuple: seq<set<nat>>) {
    |tuple| == |lhs| && forall i :: 0 <= i < |lhs| ==> (lhs[i], tuple[i]) in age
  }

  /** A repeated state first gets the macro-state {0}; then come the other states, with {1}, and
      it comes last, with {1}. */
  function MissingAge(lhs: seq<nat>, q: nat): (age: map<Element, nat>) {
    map e: Element | e in (set p | p in lhs :: (p, {1})) + {(q, {0})} ::
      if 0 in e.1 then BoundAbove(lhs) + 1 else if e.0 == q then BoundAbove(lhs) + 2 else e.0
  }

  lemma MissingAgeOrdered(lhs: seq<nat>, q: nat)
    ensures Ordered(MissingAge(lhs, q)) && Storable(MissingAge(lhs, q))
  {
    var age := MissingAge(lhs, q);
    forall d, e | d in age && e in age
      ensures age[d] == age[e] ==> d == e
      ensures d.0 == e.0 && d != e ==> !(d.1 <= e.1)
    {
      assert d == (q, {0}) || (d.1 == {1} && d.0 in lhs);
      assert e == (q, {0}) || (e.1 == {1} && e.0 in lhs);
      assert 0 in {0} && 0 !in {1} && 1 in {1} && 1 !in {0};
    }
  }

  /** The first place of the repeated state has {0}, all others have {1}. */
  function MissedTuple(lhs: seq<nat>, first: nat): (tuple: seq<set<nat>>)
    ensures |tuple| == |lhs| && forall k :: 0 <= k < |lhs| ==> tuple[k] == if k == first then {0} else {1}
  {
    seq(|lhs|, k => if k == first then {0} else {1})
  }

  lemma MissedTupleOver(lhs: seq<nat>, first: nat)
    requires first < |lhs|
    ensures OverAge(MissingAge(lhs, lhs[first]), lhs, MissedTuple(lhs, first))
  {
    forall k | 0 <= k < |lhs|
      ensures (lhs[k], MissedTuple(lhs, first)[k]) in MissingAge(lhs, lhs[first])
    {
      assert lhs[k] in lhs;
    }
  }

  lemma MissedTupleNotAnchored(lhs: seq<nat>, first: nat, j: nat)
    requires FirstAt(lhs, first) && first < j < |lhs| && lhs[first] == lhs[j]
    requires OverAge(MissingAge(lhs, lhs[first]), lhs, MissedTuple(lhs, first))
    ensures !Anchored(MissingAge(lhs, lhs[first]), lhs, MissedTuple(lhs, first))
  {
    var age, tuple := MissingAge(lhs, lhs[first]), MissedTuple(lhs, first);
    assert 0 in {0} && 0 !in {1};
    assert age[(lhs[j], tuple[j])] == BoundAbove(lhs) + 2;
    forall k: nat | FirstAt(lhs, k)
      ensures age[(lhs[k], tuple[k])] < BoundAbove(lhs) + 2
    {
      assert k == first || lhs[k] != lhs[first];
    }
  }

  lemma RepetitionMissesTuple(lhs: seq<nat>, i: nat, j: nat)
    requires i < j < |lhs| && lhs[i] == lhs[j]
    ensures !EveryTupleMet(lhs)
  {
    hide MissingAge, Anchored, Ordered, Storable, OverAge;
    var first := FirstPlace(lhs, lhs[i], i);
    MissingAgeOrdered(lhs, lhs[first]);
    MissedTupleOver(lhs, first);
    MissedTupleNotAnchored(lhs, first, j);
  }

  function BoundAbove(s: seq<nat>): (r: nat)
    ensures forall i :: 0 <= i < |s| ==> s[i] <= r
  {
    if s == [] then 0 else
      var rest := BoundAbove(s[1..]);
      assert forall i :: 1 <= i < |s| ==> s[i] == s[1..][i - 1];
      if rest < s[0] then s[0] else rest
  }

  lemma {:induction false} FirstPlace(lhs: seq<nat>, q: nat, k: nat) returns (i: nat)
    requires k < |lhs| && lhs[k] == q
    ensures i <= k && lhs[i] == q && FirstAt(lhs, i)
    decreases k
  {
    if FirstAt(lhs, k) {
      i := k;
    } else {
      var j :| 0 <= j < k && lhs[j] == lhs[k];
      i := FirstPlace(lhs, q, j);
    }
  }

  lemma {:induction false} DistinctAnchored(age: map<Element, nat>, lhs: seq<nat>, tuple: seq<set<nat>>)
    requires Distinct(lhs) && |lhs| == |tuple|
    requires forall i :: 0 <= i < |lhs| ==> (lhs[i], tuple[i]) in age
    ensures Anchored(age, lhs, tuple)
  {
    if lhs != [] {
      var i := Latest(age, lhs, tuple, |lhs|);
      assert FirstAt(lhs, i);
    }
  }

  lemma {:induction false} Latest(age: map<Element, nat>, lhs: seq<nat>, tuple: seq<set<nat>>, n: nat) returns (i: nat)
    requires |lhs| == |tuple| && 0 < n <= |lhs|
    requires forall i :: 0 <= i < |lhs| ==> (lhs[i], tuple[i]) in age
    ensures i < n
    ensures forall j :: 0 <= j < n ==> age[(lhs[j], tuple[j])] <= age[(lhs[i], tuple[i])]
    decreases n
  {
    i := 0;
    if 1 < n {
      i := Latest(age, lhs, tuple, n - 1);
      if age[(lhs[i], tuple[i])] < age[(lhs[n - 1], tuple[n - 1])] {
        i := n - 1;
      }
    }
  }

  lemma LinearMeetsAll(a: Automaton, b: Automaton, age: map<Element, nat>, from: set<Element>, cover: set<Element>)
    requires LinearLhs(a) && AnchoredClosed(a, b, age, from, cover)
    ensures Closed(a, b, from, cover)
  {
    forall t, tuple | t in a.transitions && TupleFrom(from, t, tuple)
      ensures Covers(cover, (t.rhs, Post(b, t.symbol, tuple)))
    {
      forall i | 0 <= i < |t.lhs|
        ensures (t.lhs[i], tuple[i]) in age
      {
        assert (t.lhs[i], tuple[i]) in from;
      }
      DistinctAnchored(age, t.lhs, tuple);
    }
  }

  // ---------- when tracking is no extra demand ----------

  ghost predicate Productive(m: Automaton, q: nat) {
    exists t :: q in Reached(m, t)
  }

  /** `path` leads from `q` to a final state, each step a transition whose other children are productive. */
  ghost predicate LeadsToFinal(m: Automaton, q: nat, path: seq<Transition>)
    decreases |path|
  {
    if path == [] then q in m.finals
    else
      && path[0] in m.transitions && q in path[0].lhs
      && (forall p :: p in path[0].lhs ==> Productive(m, p))
      && LeadsToFinal(m, path[0].rhs, path[1..])
  }

  /** Every productive state takes part in accepting some tree. */
  ghost predicate Trim(m: Automaton) {
    forall q :: Productive(m, q) ==> exists path :: LeadsToFinal(m, q, path)
  }

  ghost predicate Within(sub: Tree, t: Tree)
    decreases t
  {
    sub == t || exists i :: 0 <= i < |t.children| && Within(sub, t.children[i])
  }

  /** Labelling a tree means labelling each of its subtrees. */
  lemma {:induction false} SubtreesLabelled(m: Automaton, sub: Tree, t: Tree)
    requires Within(sub, t) && Reached(m, t) != {}
    ensures Reached(m, sub) != {}
    decreases t
  {
    if sub != t {
      var i :| 0 <= i < |t.children| && Within(sub, t.children[i]);
      var q :| q in Reached(m, t);
      var tr :| tr in m.transitions && Fires(tr, t.symbol, ReachedAll(m, t.children)) && tr.rhs == q;
      assert tr.lhs[i] in Reached(m, t.children[i]);
      SubtreesLabelled(m, sub, t.children[i]);
    }
  }

  lemma {:induction false} ExtendToAccepted(m: Automaton, q: nat, path: seq<Transition>, sub: Tree) returns (t: Tree)
    requires LeadsToFinal(m, q, path) && q in Reached(m, sub)
    ensures Within(sub, t) && Accepts(m, t)
    decreases |path|
  {
    if path == [] {
      t := sub;
    } else {
      var tr := path[0];
      var k :| 0 <= k < |tr.lhs| && tr.lhs[k] == q;
      var cs := ProductiveTrees(m, tr.lhs);
      cs := cs[k := sub];
      var up := Node(tr.symbol, cs);
      assert Fires(tr, tr.symbol, ReachedAll(m, cs));
      assert Within(sub, up.children[k]);
      assert tr.rhs in Reached(m, up);
      t := ExtendToAccepted(m, tr.rhs, path[1..], up);
      WithinTransitive(sub, up, t);
    }
  }

  lemma {:induction false} WithinTransitive(x: Tree, y: Tree, z: Tree)
    requires Within(x, y) && Within(y, z)
    ensures Within(x, z)
    decreases z
  {
    if y != z {
      var i :| 0 <= i < |z.children| && Within(y, z.children[i]);
      WithinTransitive(x, y, z.children[i]);
    }
  }

  lemma {:induction false} ProductiveTrees(m: Automaton, qs: seq<nat>) returns (ts: seq<Tree>)
    requires forall p :: p in qs ==> Productive(m, p)
    ensures |ts| == |qs| && forall i :: 0 <= i < |qs| ==> qs[i] in Reached(m, ts[i])
  {
    if qs == [] {
      ts := [];
    } else {
      assert qs[0] in qs;
      var t :| qs[0] in Reached(m, t);
      var rest := ProductiveTrees(m, qs[1..]);
      ts := [t] + rest;
    }
  }

  /** For a trim left automaton inclusion alone already forces tracking. */
  lemma TrimInclusionTracks(a: Automaton, b: Automaton)
    requires Trim(a) && Included(a, b)
    ensures Tracked(a, b)
  {
    forall t | Reached(a, t) != {}
      ensures Reached(b, t) != {}
    {
      var q :| q in Reached(a, t);
      assert Productive(a, q);
      var path :| LeadsToFinal(a, q, path);
      var whole := ExtendToAccepted(a, q, path, t);
      assert Accepts(b, whole);
      SubtreesLabelled(b, t, whole);
    }
  }

  /** A state that helps accept nothing breaks tracking without breaking inclusion. */
  lemma DeadStateUntracked()
    ensures var a, b := Automaton({}, [Transition([], 0, 0)]), Automaton({}, []);
      LinearLhs(a) && Included(a, b) && !Tracked(a, b)
  {
    var a, b := Automaton({}, [Transition([], 0, 0)]), Automaton({}, []);
    assert Fires(a.transitions[0], 0, ReachedAll(a, []));
    assert 0 in Reached(a, Node(0, []));
    assert Reached(b, Node(0, [])) == {};
  }
}
