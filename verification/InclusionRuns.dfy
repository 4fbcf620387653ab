/** What the inclusion check does, as values: moments of the search, each with its processed and pending elements, and
    what one answer or the other means for the languages. */
module InclusionRuns {
  import opened Buckets
  import opened TreeAutomata

  /** The states of `b` come first, those of `a` after them, `cSize` in all. */
  predicate Split(a: Automaton, b: Automaton, countB: nat, cSize: nat) {
    && countB <= cSize
    && (forall t :: t in b.transitions ==> t.rhs < countB)
    && (forall t :: t in a.transitions ==>
         countB <= t.rhs < cSize && forall i :: 0 <= i < |t.lhs| ==> countB <= t.lhs[i] < cSize)
    && (forall q :: q in b.finals ==> q < countB)
    && (forall q :: q in a.finals ==> countB <= q)
  }

  predicate Identity(rel: Relation, n: nat) {
    && |rel| == n
    && (forall i :: 0 <= i < n ==> |rel[i]| == n)
    && (forall i, j :: 0 <= i < n && 0 <= j < n ==> (rel[i][j] <==> i == j))
  }

  lemma IdentityOrder(rel: Relation, n: nat)
    requires Identity(rel, n)
    ensures Preorder(rel)
    ensures forall d, e :: InRange(rel, d) ==> (Below(rel, d, e) <==> d.0 == e.0 && d.1 <= e.1)
  {
    assert forall x: nat, y: nat :: Holds(rel, x, y) <==> x < n && x == y;
    forall d, e | InRange(rel, d)
      ensures Below(rel, d, e) <==> d.0 == e.0 && d.1 <= e.1
    {
      if d.1 <= e.1 {
        forall i | i in d.1
          ensures exists j :: j in e.1 && Holds(rel, i, j)
        {
          assert Holds(rel, i, i);
        }
      }
    }
  }

  ghost predicate SuccessorOf(a: Automaton, b: Automaton, ps: set<Element>, e: Element) {
    exists t, tuple :: t in a.transitions && TupleFrom(ps, t, tuple) && e == (t.rhs, Post(b, t.symbol, tuple))
  }

  /** The successors of all tuples over `ps` with `s` at place `i` are in `post`. */
  ghost predicate Met(b: Automaton, ps: set<Element>, t: Transition, i: nat, s: set<nat>, post: seq<Element>) {
    forall tuple :: TupleFrom(ps, t, tuple) && i < |tuple| && tuple[i] == s ==>
      (t.rhs, Post(b, t.symbol, tuple)) in post
  }

  /** All tuples over `ps` with the element (q, s) at an indexed place have been met. */
  ghost predicate MetAll(a: Automaton, b: Automaton, ps: set<Element>, ts: seq<Transition>, q: nat, s: set<nat>,
                         post: seq<Element>) {
    forall t, i: nat :: t in ts && FirstAt(t.lhs, i) && t.lhs[i] == q ==> Met(b, ps, t, i, s, post)
  }

  /** What is appended to `post` are harmless successors. */
  ghost predicate Grown(a: Automaton, b: Automaton, ps: set<Element>, post: seq<Element>, post': seq<Element>) {
    && post <= post'
    && forall k :: |post| <= k < |post'| ==> SuccessorOf(a, b, ps, post'[k]) && Harmless(a, b, post'[k])
  }

  // ---------- the search ----------

  /** The tuple over `ps`, with the element (q, s) at an indexed place, has a successor that is not harmless. */
  ghost predicate HarmfulTuple(a: Automaton, b: Automaton, ps: set<Element>, q: nat, s: set<nat>, t: Transition, i: nat,
                               tuple: seq<set<nat>>) {
    && t in a.transitions && FirstAt(t.lhs, i) && t.lhs[i] == q
    && TupleFrom(ps, t, tuple) && tuple[i] == s
    && !Harmless(a, b, (t.rhs, Post(b, t.symbol, tuple)))
  }

  ghost predicate Harm(a: Automaton, b: Automaton, ps: set<Element>, q: nat, s: set<nat>) {
    exists t, i: nat, tuple :: HarmfulTuple(a, b, ps, q, s, t, i, tuple)
  }

  /** A leaf that the right automaton cannot label, or that only the left one accepts. */
  ghost predicate LeafRefutes(a: Automaton, b: Automaton) {
    exists t :: t in a.transitions && t.lhs == [] && !Harmless(a, b, (t.rhs, Post(b, t.symbol, [])))
  }

  /** What is stored whenever an element is about to be picked. */
  datatype Moment = Moment(processed: set<Element>, pending: set<Element>)

  /** The leaves were offered. */
  ghost predicate StartsWith(a: Automaton, b: Automaton, rel: Relation, m: Moment, post: seq<Element>) {
    && Grown(a, b, {}, [], post) && m.processed == {}
    && (forall t :: t in a.transitions && t.lhs == [] ==> (t.rhs, Post(b, t.symbol, [])) in post)
    && Offered(rel, {}, {}, m.processed, m.pending, Given(post))
  }

  /** A pending element, of the lowest state that has one. */
  ghost predicate Lowest(m: Moment, e: Element) {
    e in m.pending && forall d :: d in m.pending ==> e.0 <= d.0
  }

  /** The element is filed, all tuples with it at an indexed place are met, and their successors offered. */
  ghost predicate Turns(a: Automaton, b: Automaton, rel: Relation, m: Moment, e: Element, post: seq<Element>,
                        m': Moment) {
    && Lowest(m, e)
    && Grown(a, b, m.processed + {e}, [], post)
    && MetAll(a, b, m.processed + {e}, a.transitions, e.0, e.1, post)
    && Offered(rel, m.processed + {e}, m.pending - {e}, m'.processed, m'.pending, Given(post))
  }

  ghost predicate Follows(a: Automaton, b: Automaton, rel: Relation, m: Moment, m': Moment) {
    exists e, post :: Turns(a, b, rel, m, e, post, m')
  }

  /** The moments of a search from the leaves on. */
  ghost predicate Search(a: Automaton, b: Automaton, rel: Relation, ms: seq<Moment>) {
    && ms != [] && (exists post :: StartsWith(a, b, rel, ms[0], post))
    && (forall k {:trigger ms[k]} :: 0 < k < |ms| ==> Follows(a, b, rel, ms[k - 1], ms[k]))
    && forall k :: 0 <= k < |ms| ==> Minimal(rel, ms[k].processed, ms[k].pending)
  }

  ghost predicate Refutes(a: Automaton, b: Automaton, m: Moment) {
    exists e :: Lowest(m, e) && Harm(a, b, m.processed + {e}, e.0, e.1)
  }

  function IdentityRelation(n: nat): (rel: Relation)
    ensures Identity(rel, n)
  {
    seq(n, i => seq(n, j => i == j))
  }

  /** The search can end with the answer: nothing pending any more, or a tuple met whose successor is not harmless. */
  ghost predicate Answers(a: Automaton, b: Automaton, n: nat, r: bool) {
    if r then exists ms: seq<Moment> :: Search(a, b, IdentityRelation(n), ms) && ms[|ms| - 1].pending == {}
    else LeafRefutes(a, b) || exists ms: seq<Moment> ::
      Search(a, b, IdentityRelation(n), ms) && Refutes(a, b, ms[|ms| - 1])
  }

  lemma SearchStarts(a: Automaton, b: Automaton, rel: Relation, m: Moment, post: seq<Element>)
    requires StartsWith(a, b, rel, m, post) && Minimal(rel, m.processed, m.pending)
    ensures Search(a, b, rel, [m])
  {
    var ms := [m];
    assert StartsWith(a, b, rel, ms[0], post);
  }

  lemma SearchMore(a: Automaton, b: Automaton, rel: Relation, ms: seq<Moment>, m: Moment)
    requires Search(a, b, rel, ms) && Follows(a, b, rel, ms[|ms| - 1], m) && Minimal(rel, m.processed, m.pending)
    ensures Search(a, b, rel, ms + [m])
  {
    hide Follows, Minimal, StartsWith;
    var more := ms + [m];
    assert forall k :: 0 <= k < |ms| ==> more[k] == ms[k];
  }

  lemma SearchLess(a: Automaton, b: Automaton, rel: Relation, ms: seq<Moment>)
    requires Search(a, b, rel, ms) && |ms| > 1
    ensures Search(a, b, rel, ms[..|ms| - 1]) && Follows(a, b, rel, ms[|ms| - 2], ms[|ms| - 1])
  {
    hide Follows, Minimal, StartsWith;
    assert ms[|ms| - 1] == ms[|ms| - 1];
  }

  /** At every moment the processed elements are closed under the tuples met so far, up to what is pending. */
  lemma {:induction false} SearchProgresses(a: Automaton, b: Automaton, countB: nat, n: nat, rel: Relation,
                                            ms: seq<Moment>)
    returns (age: map<Element, nat>, clock: nat)
    requires Split(a, b, countB, n) && Identity(rel, n) && Search(a, b, rel, ms)
    ensures Progress(a, b, age, clock, ms[|ms| - 1].processed, ms[|ms| - 1].pending)
    decreases |ms|
  {
    hide Progress, Grown, MetAll, Offered, Minimal;
    var m' := ms[|ms| - 1];
    if |ms| == 1 {
      var post :| StartsWith(a, b, rel, m', post);
      GrownInRange(a, b, countB, n, rel, {}, post);
      StartProgress(a, b, rel, m'.processed, m'.pending, post, n);
      return map[], 0;
    }
    SearchLess(a, b, rel, ms);
    age, clock := SearchProgresses(a, b, countB, n, rel, ms[..|ms| - 1]);
    var m := ms[|ms| - 2];
    var e, post :| Turns(a, b, rel, m, e, post, m');
    GrownInRange(a, b, countB, n, rel, m.processed + {e}, post);
    MinimalInRange(rel, m.processed, m.pending);
    RoundProgress(a, b, rel, n, age, clock, m.processed, m.pending, e, m'.processed, m'.pending, post);
    age, clock := age[e := clock], clock + 1;
  }

  lemma MinimalInRange(rel: Relation, ps: set<Element>, ns: set<Element>)
    requires Minimal(rel, ps, ns)
    ensures AllInRange(rel, ps + ns) && ps !! ns
  {}

  /** What is stored at any moment comes from trees. */
  lemma SearchWitnessed(a: Automaton, b: Automaton, countB: nat, n: nat, rel: Relation, ms: seq<Moment>)
    requires Split(a, b, countB, n) && Identity(rel, n) && Search(a, b, rel, ms)
    ensures forall d :: d in ms[|ms| - 1].processed + ms[|ms| - 1].pending ==> Witnessed(a, b, d)
  {
    var age, clock := SearchProgresses(a, b, countB, n, rel, ms);
  }

  lemma SearchStates(a: Automaton, b: Automaton, countB: nat, n: nat, rel: Relation, ms: seq<Moment>)
    requires Split(a, b, countB, n) && Identity(rel, n) && Search(a, b, rel, ms)
    ensures forall d :: d in ms[|ms| - 1].processed + ms[|ms| - 1].pending ==> countB <= d.0 < n
  {
    hide Witnessed, Follows, StartsWith, Minimal;
    SearchWitnessed(a, b, countB, n, rel, ms);
    forall d: Element | d in ms[|ms| - 1].processed + ms[|ms| - 1].pending
      ensures countB <= d.0 < n
    {
      WitnessedState(a, b, countB, n, d);
    }
  }

  /** A round covers something that nothing covered before, or leaves less pending. */
  lemma TurnShrinks(a: Automaton, b: Automaton, rel: Relation, n: nat, m: Moment, e: Element, post: seq<Element>,
                    m': Moment)
    requires Identity(rel, n) && Turns(a, b, rel, m, e, post, m') && Minimal(rel, m.processed, m.pending)
    requires forall d :: d in post ==> InRange(rel, d)
    ensures Shrunk(n, m.processed, m.pending, m'.processed, m'.pending)
  {
    hide Grown, MetAll;
    var ps, ns := m.processed, m.pending;
    assert (ps + {e}) + (ns - {e}) == ps + ns;
    OfferedShrinks(rel, n, ps + {e}, ns - {e}, m'.processed, m'.pending, post);
  }

  // ---------- there is an answer ----------

  /** The elements one by one. */
  ghost function Listed(es: set<Element>): (r: seq<Element>)
    ensures forall e :: e in r <==> e in es
  {
    if es == {} then [] else
      var e :| e in es;
      Listed(es - {e}) + [e]
  }

  lemma {:induction false} OffersEnd(rel: Relation, ps: set<Element>, ns: set<Element>, post: seq<Element>)
    returns (ps': set<Element>, ns': set<Element>)
    requires Preorder(rel) && Minimal(rel, ps, ns) && forall e :: e in post ==> InRange(rel, e)
    ensures Offered(rel, ps, ns, ps', ns', Given(post)) && Minimal(rel, ps', ns')
    decreases |post|
  {
    hide Offered, InRange;
    if post == [] {
      OfferNone(rel, ps, ns);
      return ps, ns;
    }
    var before, e := post[..|post| - 1], post[|post| - 1];
    var p, n := OffersEnd(rel, ps, ns, before);
    assert before + [e] == post;
    if Dominated(rel, p + n, e) {
      ps', ns' := p, n;
    } else {
      ps', ns' := Kept(rel, p, e), Kept(rel, n, e) + {e};
      AdmitIncomparable(rel, p, n, e);
    }
    OfferOne(rel, ps, ns, p, n, ps', ns', before, e);
  }

  /** All harmless successors of tuples over `ps`. */
  ghost function Successors(a: Automaton, b: Automaton, n: nat, ps: set<Element>): set<Element> {
    set q: nat, s: set<nat> | q < n && s <= StatesBelow(n) && SuccessorOf(a, b, ps, (q, s)) && Harmless(a, b, (q, s)) ::
      (q, s)
  }

  lemma SuccessorsListed(a: Automaton, b: Automaton, countB: nat, n: nat, rel: Relation, ps: set<Element>)
    requires Split(a, b, countB, n) && Identity(rel, n)
    ensures Grown(a, b, ps, [], Listed(Successors(a, b, n, ps)))
    ensures forall e: Element :: SuccessorOf(a, b, ps, e) && Harmless(a, b, e) ==> e in Listed(Successors(a, b, n, ps))
    ensures forall e :: e in Listed(Successors(a, b, n, ps)) ==> InRange(rel, e)
  {
    hide SuccessorOf, Harmless;
    var post := Listed(Successors(a, b, n, ps));
    assert forall k :: 0 <= k < |post| ==> post[k] in post;
    forall e: Element | SuccessorOf(a, b, ps, e) && Harmless(a, b, e)
      ensures e in Successors(a, b, n, ps)
    {
      SuccessorInRange(a, b, countB, n, rel, ps, e);
    }
  }

  /** Nothing harmful among the tuples with the element at an indexed place: all of them are met. */
  lemma HarmlessMet(a: Automaton, b: Automaton, ps: set<Element>, e: Element, post: seq<Element>)
    requires !Harm(a, b, ps, e.0, e.1)
    requires forall d: Element :: SuccessorOf(a, b, ps, d) && Harmless(a, b, d) ==> d in post
    ensures MetAll(a, b, ps, a.transitions, e.0, e.1, post)
  {
    hide Harmless;
    forall t, i: nat, tuple | t in a.transitions && FirstAt(t.lhs, i) && t.lhs[i] == e.0 &&
        TupleFrom(ps, t, tuple) && tuple[i] == e.1
      ensures (t.rhs, Post(b, t.symbol, tuple)) in post
    {
      assert !HarmfulTuple(a, b, ps, e.0, e.1, t, i, tuple);
      assert SuccessorOf(a, b, ps, (t.rhs, Post(b, t.symbol, tuple)));
    }
  }

  /** A search with something pending ends in a refutation or can go on, and comes closer to its end. */
  lemma SearchGoesOn(a: Automaton, b: Automaton, countB: nat, n: nat, rel: Relation, ms: seq<Moment>)
    returns (refuted: bool, m': Moment)
    requires Split(a, b, countB, n) && Identity(rel, n) && Search(a, b, rel, ms) && ms[|ms| - 1].pending != {}
    ensures refuted ==> Refutes(a, b, ms[|ms| - 1])
    ensures !refuted ==> Search(a, b, rel, ms + [m'])
    ensures !refuted ==>
      Shrunk(n, ms[|ms| - 1].processed, ms[|ms| - 1].pending, m'.processed, m'.pending)
  {
    hide Harm, Grown, MetAll, Offered, Shrunk, Identity, Preorder;
    var m := ms[|ms| - 1];
    m' := m;
    var e := LowestPending(m);
    var ps, ns := m.processed + {e}, m.pending - {e};
    refuted := Harm(a, b, ps, e.0, e.1);
    if !refuted {
      IdentityOrder(rel, n);
      var post := Listed(Successors(a, b, n, ps));
      SuccessorsListed(a, b, countB, n, rel, ps);
      HarmlessMet(a, b, ps, e, post);
      MovedMinimal(rel, m.processed, m.pending, e);
      var ps', ns' := OffersEnd(rel, ps, ns, post);
      m' := Moment(ps', ns');
      assert Turns(a, b, rel, m, e, post, m');
      TurnShrinks(a, b, rel, n, m, e, post, m');
      SearchMore(a, b, rel, ms, m');
    }
  }

  lemma MovedMinimal(rel: Relation, ps: set<Element>, ns: set<Element>, e: Element)
    requires Minimal(rel, ps, ns) && e in ns
    ensures Minimal(rel, ps + {e}, ns - {e})
  {
    assert ps + {e} + (ns - {e}) == ps + ns;
  }

  lemma LowestPending(m: Moment) returns (e: Element)
    requires m.pending != {}
    ensures Lowest(m, e)
  {
    var some :| some in m.pending;
    var states := set d | d in m.pending :: d.0;
    LowestExists(states, some.0, 0);
    var q :| q in states && forall p :: p in states ==> q <= p;
    e :| e in m.pending && e.0 == q;
    assert forall d :: d in m.pending ==> d.0 in states;
  }

  lemma {:induction false} SearchEnds(a: Automaton, b: Automaton, countB: nat, n: nat,
                                      ms: seq<Moment>)
    returns (r: bool)
    requires Split(a, b, countB, n) && Search(a, b, IdentityRelation(n), ms)
    ensures Answers(a, b, n, r)
    decreases Uncovered(n, ms[|ms| - 1].processed + ms[|ms| - 1].pending), |ms[|ms| - 1].pending|
  {
    hide Follows, StartsWith, Minimal, LeafRefutes, Refutes, Uncovered, IdentityRelation;
    r := true;
    if ms[|ms| - 1].pending != {} {
      var refuted, m' := SearchGoesOn(a, b, countB, n, IdentityRelation(n), ms);
      if refuted {
        r := false;
      } else {
        r := SearchEnds(a, b, countB, n, ms + [m']);
      }
    }
  }

  /** Every inclusion check has an answer. */
  lemma SearchAnswers(a: Automaton, b: Automaton, countB: nat, n: nat) returns (r: bool)
    requires Split(a, b, countB, n)
    ensures Answers(a, b, n, r)
  {
    hide Search, Grown, Offered;
    r := false;
    if !LeafRefutes(a, b) {
      var rel := IdentityRelation(n);
      IdentityOrder(rel, n);
      var post := Listed(Successors(a, b, n, {}));
      SuccessorsListed(a, b, countB, n, rel, {});
      LeavesListed(a, b, post);
      var ps, ns := OffersEnd(rel, {}, {}, post);
      assert ps == {} by {
        OfferedShort(rel, ps, ns, post);
      }
      var m := Moment(ps, ns);
      SearchStarts(a, b, rel, m, post);
      r := SearchEnds(a, b, countB, n, [m]);
    }
  }

  lemma OfferedShort(rel: Relation, ps: set<Element>, ns: set<Element>, post: seq<Element>)
    requires Offered(rel, {}, {}, ps, ns, Given(post))
    ensures ps == {}
  {}

  lemma LeavesListed(a: Automaton, b: Automaton, post: seq<Element>)
    requires !LeafRefutes(a, b)
    requires forall d: Element :: SuccessorOf(a, b, {}, d) && Harmless(a, b, d) ==> d in post
    ensures forall t :: t in a.transitions && t.lhs == [] ==> (t.rhs, Post(b, t.symbol, [])) in post
  {
    hide Harmless;
    forall t | t in a.transitions && t.lhs == []
      ensures (t.rhs, Post(b, t.symbol, [])) in post
    {
      assert TupleFrom({}, t, []) && SuccessorOf(a, b, {}, (t.rhs, Post(b, t.symbol, [])));
    }
  }

  // ---------- what the answers mean ----------

  lemma HarmDistinguishes(a: Automaton, b: Automaton, ps: set<Element>, q: nat, s: set<nat>)
    requires Harm(a, b, ps, q, s) && forall d :: d in ps ==> Witnessed(a, b, d)
    ensures exists t :: Distinguishes(a, b, t)
  {
    hide Distinguishes, Witnessed, Harmless;
    var t, i: nat, tuple :| HarmfulTuple(a, b, ps, q, s, t, i, tuple);
    SuccessorWitnessed(a, b, ps, t, tuple);
    HarmfulWitnessDistinguishes(a, b, (t.rhs, Post(b, t.symbol, tuple)));
  }

  lemma LeafDistinguishes(a: Automaton, b: Automaton)
    requires LeafRefutes(a, b)
    ensures exists t :: Distinguishes(a, b, t)
  {
    hide Distinguishes, Witnessed, Harmless;
    var t :| t in a.transitions && t.lhs == [] && !Harmless(a, b, (t.rhs, Post(b, t.symbol, [])));
    assert TupleFrom({}, t, []);
    SuccessorWitnessed(a, b, {}, t, []);
    HarmfulWitnessDistinguishes(a, b, (t.rhs, Post(b, t.symbol, [])));
  }

  /** An affirmative answer rests on a saturation by the tuples met, a negative one on a tree
      that tells the automata apart. */
  lemma AnswerRests(a: Automaton, b: Automaton, countB: nat, n: nat, r: bool)
    requires Split(a, b, countB, n) && Answers(a, b, n, r)
    ensures r ==> exists age, es :: Saturated(a, b, age, es)
    ensures !r ==> exists t :: Distinguishes(a, b, t)
  {
    hide Saturated, Distinguishes, Follows, StartsWith, Minimal, Progress, Harm;
    var rel := IdentityRelation(n);
    if r {
      var ms: seq<Moment> :| Search(a, b, rel, ms) && ms[|ms| - 1].pending == {};
      var age, clock := SearchProgresses(a, b, countB, n, rel, ms);
      ProgressSaturates(a, b, age, clock, ms[|ms| - 1].processed, ms[|ms| - 1].pending);
    } else if LeafRefutes(a, b) {
      LeafDistinguishes(a, b);
    } else {
      var ms: seq<Moment> :| Search(a, b, rel, ms) && Refutes(a, b, ms[|ms| - 1]);
      SearchWitnessed(a, b, countB, n, rel, ms);
      var e :| Lowest(ms[|ms| - 1], e) && Harm(a, b, ms[|ms| - 1].processed + {e}, e.0, e.1);
      HarmDistinguishes(a, b, ms[|ms| - 1].processed + {e}, e.0, e.1);
    }
  }

  // ---------- one round ----------

  lemma ProgressSaturates(a: Automaton, b: Automaton, age: map<Element, nat>, clock: nat, ps: set<Element>,
                          ns: set<Element>)
    requires Progress(a, b, age, clock, ps, ns) && ns == {}
    ensures Saturated(a, b, age, ps)
  {
    assert ps + ns == ps;
  }

  lemma WitnessedState(a: Automaton, b: Automaton, countB: nat, cSize: nat, e: Element)
    requires Witnessed(a, b, e) && Split(a, b, countB, cSize)
    ensures countB <= e.0 < cSize
  {
    var t :| e.0 in Reached(a, t) && e.1 == Reached(b, t);
  }

  lemma GrownInRange(a: Automaton, b: Automaton, countB: nat, cSize: nat, rel: Relation, ps: set<Element>,
                     post: seq<Element>)
    requires Grown(a, b, ps, [], post) && Split(a, b, countB, cSize) && Identity(rel, cSize)
    ensures forall e :: e in post ==> InRange(rel, e)
  {
    forall k | 0 <= k < |post|
      ensures InRange(rel, post[k])
    {
      SuccessorInRange(a, b, countB, cSize, rel, ps, post[k]);
    }
  }

  ghost predicate Shrunk(n: nat, ps: set<Element>, ns: set<Element>, ps': set<Element>, ns': set<Element>) {
    || Uncovered(n, ps' + ns') < Uncovered(n, ps + ns)
    || (Uncovered(n, ps' + ns') == Uncovered(n, ps + ns) && |ns'| < |ns|)
  }

  /** What holds whenever an element is about to be picked. */
  ghost predicate Progress(a: Automaton, b: Automaton, age: map<Element, nat>, clock: nat, ps: set<Element>,
                           ns: set<Element>) {
    && Ordered(age) && Before(age, clock)
    && AnchoredClosed(a, b, age, ps, ps + ns)
    && AllHarmless(a, b, ps + ns)
    && (forall e :: e in ps + ns ==> Witnessed(a, b, e))
  }

  lemma StartProgress(a: Automaton, b: Automaton, rel: Relation, ps: set<Element>, ns: set<Element>,
                      post: seq<Element>, n: nat)
    requires Identity(rel, n) && (forall e :: e in post ==> InRange(rel, e)) && ps == {}
    requires Grown(a, b, {}, [], post)
    requires forall t :: t in a.transitions && t.lhs == [] ==> (t.rhs, Post(b, t.symbol, [])) in post
    requires Offered(rel, {}, {}, ps, ns, Given(post))
    ensures Progress(a, b, map[], 0, ps, ns)
  {
    hide Offered, Grown, Harmless, Witnessed, InRange, Identity, Covers, Post;
    GrownWitnessed(a, b, {}, [], post);
    OfferedWithin(rel, ps, ns, post);
    forall t, tuple | t in a.transitions && TupleFrom(ps, t, tuple) && Anchored(map[], t.lhs, tuple)
      ensures Covers(ps + ns, (t.rhs, Post(b, t.symbol, tuple)))
    {
      NoTuple(ps, t, tuple);
      OfferedCovers(rel, n, {}, {}, ps, ns, post, (t.rhs, Post(b, t.symbol, tuple)));
    }
  }

  lemma OfferedWithin(rel: Relation, ps: set<Element>, ns: set<Element>, post: seq<Element>)
    requires Offered(rel, {}, {}, ps, ns, Given(post))
    ensures forall e :: e in ps + ns ==> e in post
  {
    assert forall e :: e in ps + ns ==> e in Given(post);
  }

  lemma NoTuple(es: set<Element>, t: Transition, tuple: seq<set<nat>>)
    requires TupleFrom(es, t, tuple)
    ensures tuple == [] || es != {}
  {
    if tuple != [] {
      assert (t.lhs[0], tuple[0]) in es;
    }
  }

  lemma GrownWitnessed(a: Automaton, b: Automaton, ps: set<Element>, post: seq<Element>, post': seq<Element>)
    requires Grown(a, b, ps, post, post') && forall e :: e in ps ==> Witnessed(a, b, e)
    ensures forall k :: |post| <= k < |post'| ==> Witnessed(a, b, post'[k]) && Harmless(a, b, post'[k])
  {
    forall k | |post| <= k < |post'|
      ensures Witnessed(a, b, post'[k])
    {
      SuccessorOfWitnessed(a, b, ps, post'[k]);
    }
  }

  lemma SuccessorOfWitnessed(a: Automaton, b: Automaton, ps: set<Element>, e: Element)
    requires SuccessorOf(a, b, ps, e) && forall d :: d in ps ==> Witnessed(a, b, d)
    ensures Witnessed(a, b, e)
  {
    var t, tuple :| t in a.transitions && TupleFrom(ps, t, tuple) && e == (t.rhs, Post(b, t.symbol, tuple));
    SuccessorWitnessed(a, b, ps, t, tuple);
  }

  lemma SuccessorInRange(a: Automaton, b: Automaton, countB: nat, cSize: nat, rel: Relation, ps: set<Element>,
                         e: Element)
    requires SuccessorOf(a, b, ps, e) && Split(a, b, countB, cSize) && Identity(rel, cSize)
    ensures InRange(rel, e)
  {}

  lemma CoveredIsDominated(rel: Relation, n: nat, es: set<Element>, e: Element)
    requires Identity(rel, n) && AllInRange(rel, es)
    ensures Covers(es, e) ==> Dominated(rel, es, e)
  {
    IdentityOrder(rel, n);
    if Covers(es, e) {
      var s :| (e.0, s) in es && s <= e.1;
      assert Below(rel, (e.0, s), e);
    }
  }

  /** What was covered before the offers or is among them is covered afterwards. */
  lemma OfferedCovers(rel: Relation, n: nat, ps: set<Element>, ns: set<Element>, ps': set<Element>, ns': set<Element>,
                      post: seq<Element>, e: Element)
    requires Identity(rel, n) && Offered(rel, ps, ns, ps', ns', Given(post))
    requires AllInRange(rel, ps + ns) && forall d :: d in post ==> InRange(rel, d)
    requires Covers(ps + ns, e) || e in post
    ensures Covers(ps' + ns', e)
  {
    IdentityOrder(rel, n);
    CoveredIsDominated(rel, n, ps + ns, e);
    assert Dominated(rel, ps' + ns', e);
    var d :| d in ps' + ns' && Below(rel, d, e);
    assert d in ps + ns || d in post;
    assert (d.0, d.1) in ps' + ns';
  }

  /** One round: the picked element is filed, its successors are offered. */
  ghost predicate Round(a: Automaton, b: Automaton, rel: Relation, age: map<Element, nat>, clock: nat,
                        ps: set<Element>, ns: set<Element>, e: Element, ps': set<Element>, ns': set<Element>,
                        post: seq<Element>) {
    && AllInRange(rel, ps + ns) && e in ns && (forall d :: d in post ==> InRange(rel, d))
    && Progress(a, b, age, clock, ps, ns)
    && Grown(a, b, ps + {e}, [], post)
    && MetAll(a, b, ps + {e}, a.transitions, e.0, e.1, post)
    && Offered(rel, ps + {e}, ns - {e}, ps', ns', Given(post))
  }

  lemma RoundProgress(a: Automaton, b: Automaton, rel: Relation, n: nat, age: map<Element, nat>, clock: nat,
                      ps: set<Element>, ns: set<Element>, e: Element, ps': set<Element>, ns': set<Element>,
                      post: seq<Element>)
    requires Identity(rel, n) && Round(a, b, rel, age, clock, ps, ns, e, ps', ns', post)
    ensures Progress(a, b, age[e := clock], clock + 1, ps', ns')
  {
    RoundHarmless(a, b, rel, age, clock, ps, ns, e, ps', ns', post);
    RoundClosed(a, b, rel, n, age, clock, ps, ns, e, ps', ns', post);
    RoundOrdered(age, clock, e);
  }

  lemma RoundOrdered(age: map<Element, nat>, clock: nat, e: Element)
    requires Ordered(age) && Before(age, clock)
    ensures Ordered(age[e := clock]) && Before(age[e := clock], clock + 1)
  {}

  ghost predicate Before(age: map<Element, nat>, clock: nat) {
    forall d :: d in age ==> age[d] < clock
  }

  lemma RoundHarmless(a: Automaton, b: Automaton, rel: Relation, age: map<Element, nat>, clock: nat,
                      ps: set<Element>, ns: set<Element>, e: Element, ps': set<Element>, ns': set<Element>,
                      post: seq<Element>)
    requires Round(a, b, rel, age, clock, ps, ns, e, ps', ns', post)
    ensures AllHarmless(a, b, ps' + ns') && forall d :: d in ps' + ns' ==> Witnessed(a, b, d)
  {
    GrownWitnessed(a, b, ps + {e}, [], post);
    forall d | d in ps' + ns'
      ensures Harmless(a, b, d) && Witnessed(a, b, d)
    {
      if d !in ps + ns {
        assert d in Given(post);
      }
    }
  }

  lemma RoundClosed(a: Automaton, b: Automaton, rel: Relation, n: nat, age: map<Element, nat>, clock: nat,
                    ps: set<Element>, ns: set<Element>, e: Element, ps': set<Element>, ns': set<Element>,
                    post: seq<Element>)
    requires Identity(rel, n) && Round(a, b, rel, age, clock, ps, ns, e, ps', ns', post)
    ensures AnchoredClosed(a, b, age[e := clock], ps', ps' + ns')
  {
    forall t, tuple | t in a.transitions && TupleFrom(ps', t, tuple) && Anchored(age[e := clock], t.lhs, tuple)
      ensures Covers(ps' + ns', (t.rhs, Post(b, t.symbol, tuple)))
    {
      RoundCovers(a, b, rel, n, age, clock, ps, ns, e, ps', ns', post, t, tuple);
    }
  }

  lemma RoundCovers(a: Automaton, b: Automaton, rel: Relation, n: nat, age: map<Element, nat>, clock: nat,
                    ps: set<Element>, ns: set<Element>, e: Element, ps': set<Element>, ns': set<Element>,
                    post: seq<Element>, t: Transition, tuple: seq<set<nat>>)
    requires Identity(rel, n) && Round(a, b, rel, age, clock, ps, ns, e, ps', ns', post)
    requires t in a.transitions && TupleFrom(ps', t, tuple)
    requires forall i :: 0 <= i < |t.lhs| ==> (t.lhs[i], tuple[i]) in age[e := clock]
    requires Anchored(age[e := clock], t.lhs, tuple)
    ensures Covers(ps' + ns', (t.rhs, Post(b, t.symbol, tuple)))
  {
    assert (ps + {e}) + (ns - {e}) == ps + ns;
    assert TupleFrom(ps + {e}, t, tuple);
    AnchoredMet(a, b, age, clock, ps, ns, e, t, tuple, post);
    OfferedCovers(rel, n, ps + {e}, ns - {e}, ps', ns', post, (t.rhs, Post(b, t.symbol, tuple)));
  }

  /** An anchored tuple either was dealt with before or contains the picked element at an indexed place. */
  lemma AnchoredMet(a: Automaton, b: Automaton, age: map<Element, nat>, clock: nat, ps: set<Element>, ns: set<Element>,
                    e: Element, t: Transition, tuple: seq<set<nat>>, post: seq<Element>)
    requires Progress(a, b, age, clock, ps, ns) && t in a.transitions && TupleFrom(ps + {e}, t, tuple)
    requires Anchored(age[e := clock], t.lhs, tuple)
    requires MetAll(a, b, ps + {e}, a.transitions, e.0, e.1, post)
    ensures Covers(ps + ns, (t.rhs, Post(b, t.symbol, tuple))) || (t.rhs, Post(b, t.symbol, tuple)) in post
  {
    var age' := age[e := clock];
    if j :| 0 <= j < |tuple| && (t.lhs[j], tuple[j]) == e {
      var i: nat :| FirstAt(t.lhs, i) &&
        (forall j :: 0 <= j < |t.lhs| ==> age'[(t.lhs[j], tuple[j])] <= age'[(t.lhs[i], tuple[i])]);
      assert age'[(t.lhs[i], tuple[i])] == clock;
      assert (t.lhs[i], tuple[i]) == e;
      assert Met(b, ps + {e}, t, i, e.1, post);
    } else {
      assert TupleFrom(ps, t, tuple);
      forall j | 0 <= j < |tuple|
        ensures age'[(t.lhs[j], tuple[j])] == age[(t.lhs[j], tuple[j])]
      {}
      if t.lhs != [] {
        var i: nat :| FirstAt(t.lhs, i) &&
          (forall j :: 0 <= j < |t.lhs| ==> age'[(t.lhs[j], tuple[j])] <= age'[(t.lhs[i], tuple[i])]);
      }
      assert Anchored(age, t.lhs, tuple);
    }
  }

  ghost function StatesBelow(n: nat): (r: set<nat>)
    ensures forall k: nat :: k in r <==> k < n
  {
    if n == 0 then {} else StatesBelow(n - 1) + {n - 1}
  }

  /** The elements over `n` states that are still covered by nothing; it shrinks whenever something is admitted. */
  ghost function Uncovered(n: nat, es: set<Element>): set<Element> {
    set q: nat, s: set<nat> | q < n && s <= StatesBelow(n) && !Covers(es, (q, s)) :: (q, s)
  }

  lemma StillUncovered(rel: Relation, n: nat, ps: set<Element>, ns: set<Element>, ps': set<Element>, ns': set<Element>,
                       post: seq<Element>)
    requires Identity(rel, n) && Offered(rel, ps, ns, ps', ns', Given(post))
    requires AllInRange(rel, ps + ns) && forall d :: d in post ==> InRange(rel, d)
    ensures Uncovered(n, ps' + ns') <= Uncovered(n, ps + ns)
  {
    forall e | e in Uncovered(n, ps' + ns')
      ensures e in Uncovered(n, ps + ns)
    {
      if Covers(ps + ns, e) {
        OfferedCovers(rel, n, ps, ns, ps', ns', post, e);
      }
    }
  }

  lemma OfferedShrinks(rel: Relation, n: nat, ps: set<Element>, ns: set<Element>, ps': set<Element>, ns': set<Element>,
                       post: seq<Element>)
    requires Identity(rel, n) && Offered(rel, ps, ns, ps', ns', Given(post))
    requires AllInRange(rel, ps + ns) && forall d :: d in post ==> InRange(rel, d)
    ensures (ps' == ps && ns' == ns) || Uncovered(n, ps' + ns') < Uncovered(n, ps + ns)
  {
    StillUncovered(rel, n, ps, ns, ps', ns', post);
    if !(ps' == ps && ns' == ns) {
      var e :| e in Given(post) && !Dominated(rel, ps + ns, e);
      OfferedCovers(rel, n, ps, ns, ps', ns', post, e);
      CoveredIsDominated(rel, n, ps + ns, e);
      assert e in Uncovered(n, ps + ns) && e !in Uncovered(n, ps' + ns');
    }
  }

  /** What an affirmative verdict rests on when nothing is known about left-hand sides: a
      saturation by the tuples met. */
  ghost predicate Saturated(a: Automaton, b: Automaton, age: map<Element, nat>, es: set<Element>) {
    Ordered(age) && AnchoredClosed(a, b, age, es, es) && AllHarmless(a, b, es)
  }

  /** What the two verdicts mean for languages, when left-hand sides are linear. */
  lemma VerdictMeaning(a: Automaton, b: Automaton, r: bool)
    requires r ==> exists age, es :: Saturated(a, b, age, es)
    requires !r ==> exists t :: Distinguishes(a, b, t)
    ensures LinearLhs(a) ==> (r <==> Included(a, b) && Tracked(a, b))
    ensures LinearLhs(a) && Trim(a) ==> (r <==> Included(a, b))
  {
    DistinguishedMeansNot(a, b);
    if LinearLhs(a) && r {
      var age, es :| Saturated(a, b, age, es);
      LinearMeetsAll(a, b, age, es, es);
      SaturationProvesInclusion(a, b, es);
    }
    if Included(a, b) && Trim(a) {
      TrimInclusionTracks(a, b);
    }
  }
}
