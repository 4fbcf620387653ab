/** The union of two tree automata under new state numbers, as it is built for the inclusion check: the numbering of
    states as they are met, the two copies, and what a copy labels.  The second copy has no final states. */
module RenamedUnion {
  import opened Collections
  import opened InclusionRuns
  import opened TreeAutomata

  // ---------- numbers for states ----------

  type Numbering = map<nat, nat>

  /** Numbers from 0 on without gaps, each given once. */
  ghost predicate Dense(m: Numbering) {
    && (forall x :: x in m ==> m[x] < |m|)
    && (forall x, y :: x in m && y in m && m[x] == m[y] ==> x == y)
    && forall n: nat :: n < |m| ==> IsNumber(m, n)
  }

  ghost predicate IsNumber(m: Numbering, n: nat) {
    exists x :: x in m && m[x] == n
  }

  ghost predicate Keeps(m: Numbering, m': Numbering) {
    forall x :: x in m ==> x in m' && m'[x] == m[x]
  }

  /** What is met for the first time gets the next number. */
  function Numbered(m: Numbering, xs: seq<nat>): Numbering {
    if xs == [] then m
    else
      var before := Numbered(m, xs[..|xs| - 1]);
      var x := xs[|xs| - 1];
      if x in before then before else before[x := |before|]
  }

  lemma {:induction false} NumberedMore(m: Numbering, xs: seq<nat>, ys: seq<nat>)
    ensures Numbered(m, xs + ys) == Numbered(Numbered(m, xs), ys)
    decreases |ys|
  {
    if ys == [] {
      assert xs + ys == xs;
    } else {
      NumberedMore(m, xs, ys[..|ys| - 1]);
      assert (xs + ys)[..|xs + ys| - 1] == xs + ys[..|ys| - 1];
    }
  }

  /** Numbers given stay, and exactly what was met has one. */
  lemma {:induction false} NumberedKeeps(m: Numbering, xs: seq<nat>)
    requires Dense(m)
    ensures Dense(Numbered(m, xs))
    ensures Keeps(m, Numbered(m, xs))
    ensures forall x :: x in Numbered(m, xs) <==> x in m || x in xs
    decreases |xs|
  {
    if xs != [] {
      var before, x := Numbered(m, xs[..|xs| - 1]), xs[|xs| - 1];
      NumberedKeeps(m, xs[..|xs| - 1]);
      assert xs == xs[..|xs| - 1] + [x];
      if x !in before {
        DenseMore(before, x);
      }
    }
  }

  lemma DenseMore(m: Numbering, x: nat)
    requires Dense(m) && x !in m
    ensures Dense(m[x := |m|])
  {
    var more := m[x := |m|];
    forall n: nat | n < |more|
      ensures IsNumber(more, n)
    {
      if n < |m| {
        assert IsNumber(m, n);
        var y :| y in m && m[y] == n;
        assert more[y] == n;
      } else {
        assert more[x] == n;
      }
    }
  }

  /** One more state, after those of `xs`. */
  lemma NumberedNext(m: Numbering, xs: seq<nat>, ys: seq<nat>)
    requires Dense(m)
    ensures
      var now := Numbered(m, xs);
      var next := Numbered(now, ys);
      && Dense(now) && Dense(next) && next == Numbered(m, xs + ys) && Keeps(now, next) && Keeps(m, now)
      && (forall x :: x in xs ==> x in now) && forall y :: y in ys ==> y in next
  {
    NumberedKeeps(m, xs);
    NumberedKeeps(Numbered(m, xs), ys);
    NumberedMore(m, xs, ys);
  }

  function At(m: Numbering, offset: nat, x: nat): nat {
    (if x in m then m[x] else 0) + offset
  }

  function Images(m: Numbering, offset: nat, s: set<nat>): set<nat> {
    set x | x in s :: At(m, offset, x)
  }

  function Translated(m: Numbering, offset: nat, xs: seq<nat>): (r: seq<nat>)
    ensures |r| == |xs| && forall i :: 0 <= i < |xs| ==> r[i] == At(m, offset, xs[i])
  {
    seq(|xs|, i requires 0 <= i < |xs| => At(m, offset, xs[i]))
  }

  function CopyOf(m: Numbering, offset: nat, t: Transition): Transition {
    Transition(Translated(m, offset, t.lhs), t.symbol, At(m, offset, t.rhs))
  }

  lemma NoneNumbered(m: Numbering)
    ensures Numbered(m, []) == m
  {}

  lemma TranslatedMore(m: Numbering, m': Numbering, offset: nat, xs: seq<nat>, x: nat)
    requires Keeps(m, m') && (forall y :: y in xs ==> y in m) && x in m'
    ensures Translated(m', offset, xs + [x]) == Translated(m, offset, xs) + [m'[x] + offset]
  {
    forall k | 0 <= k < |xs|
      ensures At(m', offset, xs[k]) == At(m, offset, xs[k])
    {
      assert xs[k] in xs;
    }
  }

  lemma TranslatedStays(m: Numbering, m': Numbering, offset: nat, xs: seq<nat>)
    requires Keeps(m, m') && forall y :: y in xs ==> y in m
    ensures Translated(m', offset, xs) == Translated(m, offset, xs)
  {
    forall k | 0 <= k < |xs|
      ensures At(m', offset, xs[k]) == At(m, offset, xs[k])
    {
      assert xs[k] in xs;
    }
  }

  class Index {
    var map_: Numbering

    constructor ()
      ensures map_ == map[]
    {
      map_ := map[];
    }

    /** The number of a state; a state met for the first time gets the next one. */
    method TranslateOTF(x: nat) returns (n: nat)
      modifies this
      ensures map_ == Numbered(old(map_), [x]) && x in map_ && n == map_[x]
    {
      assert [x][..0] == [];
      if x !in map_ {
        map_ := map_[x := |map_|];
      }
      n := map_[x];
    }

    method TranslateAll(src: seq<nat>, offset: nat) returns (dst: seq<nat>)
      requires Dense(map_)
      modifies this
      ensures map_ == Numbered(old(map_), src) && dst == Translated(map_, offset, src)
    {
      hide Dense, Numbered;
      dst := [];
      NoneNumbered(map_);
      assert src[..0] == [];
      for i := 0 to |src|
        invariant map_ == Numbered(old(map_), src[..i]) && dst == Translated(map_, offset, src[..i])
      {
        NumberedNext(old(map_), src[..i], [src[i]]);
        assert src[..i + 1] == src[..i] + [src[i]];
        ghost var before := map_;
        var n := TranslateOTF(src[i]);
        TranslatedMore(before, map_, offset, src[..i], src[i]);
        dst := dst + [n + offset];
      }
      assert src[..|src|] == src;
    }
  }

  // ---------- copies ----------

  /** The states of transitions as they are met. */
  function StatesMet(ts: seq<Transition>): seq<nat> {
    if ts == [] then [] else StatesMet(ts[..|ts| - 1]) + ts[|ts| - 1].lhs + [ts[|ts| - 1].rhs]
  }

  ghost predicate Has(m: Numbering, t: Transition) {
    t.rhs in m && forall i :: 0 <= i < |t.lhs| ==> t.lhs[i] in m
  }

  ghost predicate HasAll(m: Numbering, ts: seq<Transition>) {
    forall t :: t in ts ==> Has(m, t)
  }

  lemma {:induction false} MetHas(ts: seq<Transition>, t: Transition)
    requires t in ts
    ensures t.rhs in StatesMet(ts) && forall i :: 0 <= i < |t.lhs| ==> t.lhs[i] in StatesMet(ts)
    decreases |ts|
  {
    var last := ts[|ts| - 1];
    if t != last {
      MetHas(ts[..|ts| - 1], t);
    }
  }

  lemma CopyStays(m: Numbering, m': Numbering, offset: nat, t: Transition)
    requires Has(m, t) && Keeps(m, m')
    ensures CopyOf(m', offset, t) == CopyOf(m, offset, t) && Has(m', t)
  {
    assert Translated(m', offset, t.lhs) == Translated(m, offset, t.lhs);
  }

  /** `now` has the transitions of `dst` and the copies of `ts`. */
  ghost predicate CopiesAdded(m: Numbering, offset: nat, dst: seq<Transition>, ts: seq<Transition>,
                              now: seq<Transition>) {
    && HasAll(m, ts)
    && (forall t :: t in dst ==> t in now)
    && (forall t :: t in ts ==> CopyOf(m, offset, t) in now)
    && forall t :: t in now ==> t in dst || IsCopy(m, offset, ts, t)
  }

  ghost predicate IsCopy(m: Numbering, offset: nat, ts: seq<Transition>, t: Transition) {
    exists u :: u in ts && t == CopyOf(m, offset, u)
  }

  lemma CopiesMore(m: Numbering, m': Numbering, offset: nat, dst: seq<Transition>, ts: seq<Transition>,
                   now: seq<Transition>, t: Transition, now': seq<Transition>)
    requires CopiesAdded(m, offset, dst, ts, now) && Keeps(m, m') && Has(m', t)
    requires forall u :: u in now' <==> u in now || u == CopyOf(m', offset, t)
    ensures CopiesAdded(m', offset, dst, ts + [t], now')
  {
    forall u | u in ts
      ensures Has(m', u) && CopyOf(m', offset, u) in now'
    {
      CopyStays(m, m', offset, u);
    }
    forall v | v in now'
      ensures v in dst || IsCopy(m', offset, ts + [t], v)
    {
      if v in now && v !in dst {
        var u :| u in ts && v == CopyOf(m, offset, u);
        CopyStays(m, m', offset, u);
        assert u in ts + [t];
      } else if v !in dst {
        assert t in ts + [t];
      }
    }
  }

  /** The final states, each once. */
  ghost predicate Lists(xs: seq<nat>, s: set<nat>) {
    |xs| == |s| && forall x :: x in xs <==> x in s
  }

  /** Adds a copy of `src` to `dst`, under the numbers of the index. */
  method Reduce(dst: Automaton, src: Automaton, index: Index, offset: nat, addFinalStates: bool)
    returns (r: Automaton, ghost fs: seq<nat>)
    requires Dense(index.map_)
    modifies index
    ensures Lists(fs, if addFinalStates then src.finals else {})
    ensures index.map_ == Numbered(old(index.map_), fs + StatesMet(src.transitions)) && Dense(index.map_)
    ensures CopiesAdded(index.map_, offset, dst.transitions, src.transitions, r.transitions)
    ensures r.finals == dst.finals + if addFinalStates then Images(index.map_, offset, src.finals) else {}
  {
    hide Dense, Numbered, CopiesAdded, StatesMet;
    r, fs := dst, [];
    NoneNumbered(index.map_);
    if addFinalStates {
      r, fs := ReduceFinals(dst, src.finals, index, offset);
    }
    ghost var m := index.map_;
    NumberedNext(old(index.map_), fs, StatesMet(src.transitions));
    var ts := ReduceTransitions(dst.transitions, src.transitions, index, offset);
    r := Automaton(r.finals, ts);
    if addFinalStates {
      FinalsStay(m, index.map_, offset, src.finals);
    }
  }

  method ReduceTransitions(dst: seq<Transition>, src: seq<Transition>, index: Index, offset: nat)
    returns (ts: seq<Transition>)
    requires Dense(index.map_)
    modifies index
    ensures index.map_ == Numbered(old(index.map_), StatesMet(src)) && Dense(index.map_)
    ensures CopiesAdded(index.map_, offset, dst, src, ts)
  {
    hide Dense, Numbered, CopiesAdded, StatesMet, Has;
    ts := dst;
    NoneMet(index.map_, offset, dst);
    assert src[..0] == [];
    for i := 0 to |src|
      invariant Dense(index.map_) && index.map_ == Numbered(old(index.map_), StatesMet(src[..i]))
      invariant CopiesAdded(index.map_, offset, dst, src[..i], ts)
    {
      ghost var before, was := index.map_, ts;
      MetNext(src, i);
      NumberedNext(old(index.map_), StatesMet(src[..i]), src[i].lhs + [src[i].rhs]);
      var copy := ReduceTransition(src[i], index, offset);
      if copy !in ts {
        ts := ts + [copy];
      }
      CopiesMore(before, index.map_, offset, dst, src[..i], was, src[i], ts);
    }
    assert src[..|src|] == src;
  }

  lemma NoneMet(m: Numbering, offset: nat, dst: seq<Transition>)
    ensures Numbered(m, StatesMet([])) == m && CopiesAdded(m, offset, dst, [], dst)
  {}

  lemma MetNext(ts: seq<Transition>, i: nat)
    requires i < |ts|
    ensures StatesMet(ts[..i + 1]) == StatesMet(ts[..i]) + (ts[i].lhs + [ts[i].rhs])
    ensures ts[..i + 1] == ts[..i] + [ts[i]]
  {
    assert ts[..i + 1][..i] == ts[..i];
  }

  lemma FinalsStay(m: Numbering, m': Numbering, offset: nat, finals: set<nat>)
    requires Keeps(m, m') && forall q :: q in finals ==> q in m
    ensures Images(m', offset, finals) == Images(m, offset, finals)
  {
    assert forall q :: q in finals ==> At(m', offset, q) == At(m, offset, q);
  }

  method ReduceTransition(t: Transition, index: Index, offset: nat) returns (copy: Transition)
    requires Dense(index.map_)
    modifies index
    ensures index.map_ == Numbered(old(index.map_), t.lhs + [t.rhs]) && Dense(index.map_)
    ensures Has(index.map_, t) && copy == CopyOf(index.map_, offset, t)
  {
    hide Dense, Numbered;
    NumberedNext(index.map_, t.lhs, [t.rhs]);
    var lhs := index.TranslateAll(t.lhs, offset);
    ghost var m := index.map_;
    var rhs := index.TranslateOTF(t.rhs);
    TranslatedStays(m, index.map_, offset, t.lhs);
    copy := Transition(lhs, t.symbol, rhs + offset);
  }

  method ReduceFinals(dst: Automaton, finals: set<nat>, index: Index, offset: nat)
    returns (r: Automaton, ghost fs: seq<nat>)
    requires Dense(index.map_)
    modifies index
    ensures Lists(fs, finals) && index.map_ == Numbered(old(index.map_), fs) && Dense(index.map_)
    ensures r == Automaton(dst.finals + Images(index.map_, offset, finals), dst.transitions)
  {
    hide Dense, Numbered, FinalsDone;
    var rest: set<nat>, added: set<nat> := finals, {};
    fs := [];
    NoneDone(index.map_, offset);
    assert finals - rest == {};
    while rest != {}
      invariant rest <= finals && FinalsDone(old(index.map_), index.map_, offset, finals - rest, fs, added)
    {
      var q := Smallest(rest);
      ghost var m := index.map_;
      var n := index.TranslateOTF(q);
      DoneNext(old(index.map_), m, index.map_, offset, finals - rest, fs, added, q);
      assert finals - (rest - {q}) == finals - rest + {q};
      rest, added, fs := rest - {q}, added + {n + offset}, fs + [q];
    }
    assert finals - rest == finals;
    DoneMeans(old(index.map_), index.map_, offset, finals, fs, added);
    r := Automaton(dst.finals + added, dst.transitions);
  }

  /** The final states in `done` have numbers, and their copies are final. */
  ghost predicate FinalsDone(was: Numbering, m: Numbering, offset: nat, done: set<nat>, fs: seq<nat>, added: set<nat>) {
    Dense(was) && Lists(fs, done) && m == Numbered(was, fs) && added == Images(m, offset, done)
  }

  lemma NoneDone(m: Numbering, offset: nat)
    requires Dense(m)
    ensures FinalsDone(m, m, offset, {}, [], {})
  {}

  lemma DoneNext(was: Numbering, m: Numbering, m': Numbering, offset: nat, done: set<nat>, fs: seq<nat>,
                 added: set<nat>, q: nat)
    requires FinalsDone(was, m, offset, done, fs, added) && q !in done && m' == Numbered(m, [q])
    ensures q in m' && FinalsDone(was, m', offset, done + {q}, fs + [q], added + {m'[q] + offset})
  {
    hide Dense, Numbered, Images, Lists;
    NumberedNext(was, fs, [q]);
    ListedMore(fs, done, q);
    FinalsMore(m, m', offset, done, q);
  }

  lemma DoneMeans(was: Numbering, m: Numbering, offset: nat, done: set<nat>, fs: seq<nat>, added: set<nat>)
    requires FinalsDone(was, m, offset, done, fs, added)
    ensures Dense(m) && m == Numbered(was, fs) && Lists(fs, done) && added == Images(m, offset, done)
  {
    NumberedNext(was, fs, []);
  }

  lemma ListedMore(fs: seq<nat>, s: set<nat>, q: nat)
    requires Lists(fs, s) && q !in s
    ensures Lists(fs + [q], s + {q}) && forall x :: x in s <==> x in fs
  {}

  lemma FinalsMore(m: Numbering, m': Numbering, offset: nat, finals: set<nat>, q: nat)
    requires Keeps(m, m') && (forall x :: x in finals ==> x in m) && q in m'
    ensures Images(m', offset, finals + {q}) == Images(m, offset, finals) + {m'[q] + offset}
  {
    FinalsStay(m, m', offset, finals);
  }

  // ---------- the union ----------

  /** The numbers that the states of a copy get: first the final states, if these are copied, then the others as
      transitions list them. */
  ghost predicate NumbersFor(f: Numbering, m: Automaton, keep: bool, fs: seq<nat>) {
    && Lists(fs, if keep then m.finals else {})
    && f == Numbered(map[], fs + StatesMet(m.transitions)) && Dense(f)
  }

  /** `c` is a copy of `a` from `offset` on and one of `b` behind, with the final states of `b` if `keep` says so. */
  ghost predicate UnionOf(c: Automaton, a: Automaton, f: Numbering, offset: nat, b: Automaton, g: Numbering,
                          keep: bool) {
    && c.finals == Images(f, offset, a.finals) + (if keep then Images(g, |f|, b.finals) else {})
    && exists ts ::
      CopiesAdded(f, offset, [], a.transitions, ts) && CopiesAdded(g, |f|, ts, b.transitions, c.transitions)
  }

  /** The offset of the first copy is given where it is asked whether the second one keeps its final states. */
  method RenamedUnion(a: Automaton, b: Automaton, offset: nat)
    returns (c: Automaton, aSize: nat, ghost f: Numbering, ghost g: Numbering, ghost fs: seq<nat>, ghost gs: seq<nat>)
    ensures NumbersFor(f, a, true, fs) && NumbersFor(g, b, offset != 0, gs) && aSize == |f|
    ensures UnionOf(c, a, f, offset, b, g, offset != 0)
  {
    hide Dense, CopiesAdded, Lists, Numbered, StatesMet, Images;
    NoneDense();
    var index := new Index();
    c, fs := Reduce(Automaton({}, []), a, index, offset, true);
    aSize, f := |index.map_|, index.map_;
    index.map_ := map[];
    ghost var ts := c.transitions;
    c, gs := Reduce(c, b, index, aSize, offset != 0);
    g := index.map_;
    assert CopiesAdded(f, offset, [], a.transitions, ts) && CopiesAdded(g, |f|, ts, b.transitions, c.transitions);
  }

  lemma NoneDense()
    ensures Dense(map[])
  {}

  // ---------- the two parts of a union ----------

  /** The transitions into states from `n` on, or below. */
  function PartOf(ts: seq<Transition>, n: nat, left: bool): seq<Transition> {
    if ts == [] then []
    else PartOf(ts[..|ts| - 1], n, left) + if (ts[|ts| - 1].rhs >= n) == left then [ts[|ts| - 1]] else []
  }

  lemma {:induction false} PartMembers(ts: seq<Transition>, n: nat, left: bool, t: Transition)
    ensures t in PartOf(ts, n, left) <==> t in ts && (t.rhs >= n) == left
    decreases |ts|
  {
    if ts != [] {
      PartMembers(ts[..|ts| - 1], n, left, t);
      assert ts == ts[..|ts| - 1] + [ts[|ts| - 1]];
    }
  }

  lemma PartNext(ts: seq<Transition>, n: nat, left: bool, i: nat)
    requires i < |ts|
    ensures (ts[i].rhs >= n) == left ==> PartOf(ts[..i + 1], n, left) == PartOf(ts[..i], n, left) + [ts[i]]
    ensures (ts[i].rhs >= n) != left ==> PartOf(ts[..i + 1], n, left) == PartOf(ts[..i], n, left)
  {
    assert ts[..i + 1][..i] == ts[..i];
  }

  /** The automaton whose states are from `n` on. */
  function LeftPart(c: Automaton, n: nat): Automaton {
    Automaton((set q | q in c.finals && q >= n), PartOf(c.transitions, n, true))
  }

  function RightPart(c: Automaton, n: nat): Automaton {
    Automaton((set q | q in c.finals && q < n), PartOf(c.transitions, n, false))
  }

  /** All states of an automaton. */
  function States(c: Automaton): set<nat> {
    c.finals + (set t | t in c.transitions :: t.rhs) +
    (set t, i | t in c.transitions && 0 <= i < |t.lhs| :: t.lhs[i])
  }

  // ---------- what a copy labels ----------

  /** `m` is `src` with its states numbered anew, without its final states unless `keep` says so. */
  ghost predicate Copied(f: Numbering, offset: nat, src: Automaton, m: Automaton, keep: bool) {
    && Dense(f) && HasAll(f, src.transitions)
    && (forall t :: t in src.transitions ==> CopyOf(f, offset, t) in m.transitions)
    && (forall t :: t in m.transitions ==> IsCopy(f, offset, src.transitions, t))
    && (if keep then src.finals <= f.Keys && m.finals == Images(f, offset, src.finals) else m.finals == {})
  }

  /** Numbers of states are reached where the states are. */
  lemma {:induction false} CopyReaches(f: Numbering, offset: nat, src: Automaton, m: Automaton, keep: bool, t: Tree,
                                       q: nat)
    requires Copied(f, offset, src, m, keep) && q in Reached(src, t)
    ensures q in f && At(f, offset, q) in Reached(m, t)
    decreases t
  {
    var sets := ReachedAll(src, t.children);
    var tr :| tr in src.transitions && Fires(tr, t.symbol, sets) && tr.rhs == q;
    forall i | 0 <= i < |t.children|
      ensures At(f, offset, tr.lhs[i]) in Reached(m, t.children[i])
    {
      CopyReaches(f, offset, src, m, keep, t.children[i], tr.lhs[i]);
    }
    assert Fires(CopyOf(f, offset, tr), t.symbol, ReachedAll(m, t.children));
  }

  /** And only there. */
  lemma {:induction false} CopyReachesOnly(f: Numbering, offset: nat, src: Automaton, m: Automaton, keep: bool, t: Tree,
                                           n: nat) returns (q: nat)
    requires Copied(f, offset, src, m, keep) && n in Reached(m, t)
    ensures q in f && q in Reached(src, t) && n == At(f, offset, q)
    decreases t
  {
    var sets := ReachedAll(m, t.children);
    var tr :| tr in m.transitions && Fires(tr, t.symbol, sets) && tr.rhs == n;
    assert IsCopy(f, offset, src.transitions, tr);
    var u :| u in src.transitions && tr == CopyOf(f, offset, u);
    assert Has(f, u);
    forall i | 0 <= i < |t.children|
      ensures u.lhs[i] in Reached(src, t.children[i])
    {
      var p := CopyReachesOnly(f, offset, src, m, keep, t.children[i], tr.lhs[i]);
      assert f[p] == f[u.lhs[i]];
    }
    assert Fires(u, t.symbol, ReachedAll(src, t.children));
    q := u.rhs;
  }

  lemma CopyLabels(f: Numbering, offset: nat, src: Automaton, m: Automaton, keep: bool, t: Tree)
    requires Copied(f, offset, src, m, keep)
    ensures Reached(m, t) == {} <==> Reached(src, t) == {}
  {
    hide Copied, Reached;
    if q :| q in Reached(src, t) {
      CopyReaches(f, offset, src, m, keep, t, q);
    }
    if n :| n in Reached(m, t) {
      var q := CopyReachesOnly(f, offset, src, m, keep, t, n);
    }
  }

  lemma CopyAccepts(f: Numbering, offset: nat, src: Automaton, m: Automaton, keep: bool, t: Tree)
    requires Copied(f, offset, src, m, keep)
    ensures Accepts(m, t) <==> keep && Accepts(src, t)
  {
    hide Reached;
    if keep {
      if q :| q in Reached(src, t) && q in src.finals {
        CopyReaches(f, offset, src, m, keep, t, q);
      }
      if n :| n in Reached(m, t) && n in m.finals {
        var q := CopyReachesOnly(f, offset, src, m, keep, t, n);
        var p :| p in src.finals && n == At(f, offset, p);
        assert f[p] == f[q];
      }
    }
  }

  /** One automaton tracks another exactly if the copies do. */
  lemma CopiesTrack(f: Numbering, offset: nat, a: Automaton, a': Automaton, g: Numbering, offset': nat, b: Automaton,
                    b': Automaton, keep: bool, keep': bool)
    requires Copied(f, offset, a, a', keep) && Copied(g, offset', b, b', keep')
    ensures Tracked(a', b') <==> Tracked(a, b)
    ensures forall t :: Reached(a', t) != {} && Reached(b', t) == {} <==> Reached(a, t) != {} && Reached(b, t) == {}
  {
    hide Copied, Reached;
    forall t
      ensures (Reached(a', t) == {} <==> Reached(a, t) == {}) && (Reached(b', t) == {} <==> Reached(b, t) == {})
    {
      CopyLabels(f, offset, a, a', keep, t);
      CopyLabels(g, offset', b, b', keep', t);
    }
  }

  lemma CopiedLinear(f: Numbering, offset: nat, src: Automaton, m: Automaton, keep: bool)
    requires Copied(f, offset, src, m, keep) && LinearLhs(src)
    ensures LinearLhs(m)
  {
    forall t | t in m.transitions
      ensures Distinct(t.lhs)
    {
      assert IsCopy(f, offset, src.transitions, t);
      var u :| u in src.transitions && t == CopyOf(f, offset, u);
      assert Has(f, u) && Distinct(u.lhs);
    }
  }

  lemma CopiedRanked(f: Numbering, offset: nat, a: Automaton, a': Automaton, g: Numbering, offset': nat, b: Automaton,
                     b': Automaton, keep: bool, keep': bool)
    requires Copied(f, offset, a, a', keep) && Copied(g, offset', b, b', keep') && Ranked(a, b)
    ensures Ranked(a', b')
  {
    forall t, u | t in a'.transitions && u in b'.transitions && t.symbol == u.symbol
      ensures |t.lhs| == |u.lhs|
    {
      assert IsCopy(f, offset, a.transitions, t) && IsCopy(g, offset', b.transitions, u);
    }
  }

  // ---------- the parts of the union are the copies ----------

  lemma FirstBelow(f: Numbering, ts: seq<Transition>, t: Transition)
    requires Dense(f) && HasAll(f, ts) && IsCopy(f, 0, ts, t)
    ensures t.rhs < |f| && forall i :: 0 <= i < |t.lhs| ==> t.lhs[i] < |f|
  {
    var u :| u in ts && t == CopyOf(f, 0, u);
    assert Has(f, u);
  }

  lemma SecondAbove(g: Numbering, n: nat, ts: seq<Transition>, t: Transition)
    requires Dense(g) && HasAll(g, ts) && IsCopy(g, n, ts, t)
    ensures n <= t.rhs < n + |g| && forall i :: 0 <= i < |t.lhs| ==> n <= t.lhs[i] < n + |g|
  {
    var u :| u in ts && t == CopyOf(g, n, u);
    assert Has(g, u);
  }

  lemma UnionTransitions(c: Automaton, a: Automaton, f: Numbering, b: Automaton, g: Numbering, keep: bool,
                         t: Transition)
    requires UnionOf(c, a, f, 0, b, g, keep) && Dense(f) && Dense(g)
    ensures HasAll(f, a.transitions) && HasAll(g, b.transitions)
    ensures t in c.transitions <==> IsCopy(f, 0, a.transitions, t) || IsCopy(g, |f|, b.transitions, t)
    ensures IsCopy(f, 0, a.transitions, t) ==> t.rhs < |f|
    ensures IsCopy(g, |f|, b.transitions, t) ==> t.rhs >= |f|
  {
    var ts :| CopiesAdded(f, 0, [], a.transitions, ts) && CopiesAdded(g, |f|, ts, b.transitions, c.transitions);
    if IsCopy(f, 0, a.transitions, t) {
      FirstBelow(f, a.transitions, t);
    }
    if IsCopy(g, |f|, b.transitions, t) {
      SecondAbove(g, |f|, b.transitions, t);
    }
  }

  lemma UnionParts(c: Automaton, a: Automaton, f: Numbering, fs: seq<nat>, b: Automaton, g: Numbering, gs: seq<nat>,
                   keep: bool)
    requires UnionOf(c, a, f, 0, b, g, keep) && NumbersFor(f, a, true, fs) && NumbersFor(g, b, keep, gs)
    ensures Copied(f, 0, a, RightPart(c, |f|), true) && Copied(g, |f|, b, LeftPart(c, |f|), keep)
  {
    hide UnionOf, Numbered, StatesMet, IsCopy, HasAll, Dense;
    var right, left := RightPart(c, |f|), LeftPart(c, |f|);
    UnionHas(c, a, f, b, g, keep);
    forall t
      ensures t in right.transitions <==> IsCopy(f, 0, a.transitions, t)
      ensures t in left.transitions <==> IsCopy(g, |f|, b.transitions, t)
    {
      PartMembers(c.transitions, |f|, false, t);
      PartMembers(c.transitions, |f|, true, t);
      UnionTransitions(c, a, f, b, g, keep, t);
    }
    FinalsHave(f, a, true, fs);
    FinalsHave(g, b, keep, gs);
    UnionFinals(c, a, f, b, g, keep);
    CopiedFrom(f, 0, a, right, true);
    CopiedFrom(g, |f|, b, left, keep);
  }

  lemma UnionHas(c: Automaton, a: Automaton, f: Numbering, b: Automaton, g: Numbering, keep: bool)
    requires UnionOf(c, a, f, 0, b, g, keep)
    ensures HasAll(f, a.transitions) && HasAll(g, b.transitions)
  {}

  lemma CopiedFrom(f: Numbering, offset: nat, src: Automaton, m: Automaton, keep: bool)
    requires Dense(f) && HasAll(f, src.transitions)
    requires forall t :: t in m.transitions <==> IsCopy(f, offset, src.transitions, t)
    requires if keep then src.finals <= f.Keys && m.finals == Images(f, offset, src.finals) else m.finals == {}
    ensures Copied(f, offset, src, m, keep)
  {
    hide Dense, HasAll;
    CopiesAreCopies(f, offset, src.transitions);
  }

  lemma CopiesAreCopies(f: Numbering, offset: nat, ts: seq<Transition>)
    ensures forall t :: t in ts ==> IsCopy(f, offset, ts, CopyOf(f, offset, t))
  {}

  lemma FinalsHave(f: Numbering, m: Automaton, keep: bool, fs: seq<nat>)
    requires NumbersFor(f, m, keep, fs)
    ensures keep ==> m.finals <= f.Keys
    ensures forall x :: x in f <==> (keep && x in m.finals) || x in StatesMet(m.transitions)
  {
    NoneDense();
    NumberedKeeps(map[], fs + StatesMet(m.transitions));
  }

  lemma UnionFinals(c: Automaton, a: Automaton, f: Numbering, b: Automaton, g: Numbering, keep: bool)
    requires UnionOf(c, a, f, 0, b, g, keep) && Dense(f) && Dense(g) && a.finals <= f.Keys
    requires keep ==> b.finals <= g.Keys
    ensures RightPart(c, |f|).finals == Images(f, 0, a.finals)
    ensures LeftPart(c, |f|).finals == if keep then Images(g, |f|, b.finals) else {}
  {}

  lemma PartsSplit(c: Automaton, a: Automaton, f: Numbering, b: Automaton, g: Numbering, keep: bool)
    requires Copied(f, 0, a, RightPart(c, |f|), true) && Copied(g, |f|, b, LeftPart(c, |f|), keep)
    ensures Split(LeftPart(c, |f|), RightPart(c, |f|), |f|, |f| + |g|)
  {
    hide LeftPart, RightPart;
    var left, right := LeftPart(c, |f|), RightPart(c, |f|);
    forall t | t in right.transitions
      ensures t.rhs < |f|
    {
      FirstBelow(f, a.transitions, t);
    }
    forall t | t in left.transitions
      ensures |f| <= t.rhs < |f| + |g| && forall i :: 0 <= i < |t.lhs| ==> |f| <= t.lhs[i] < |f| + |g|
    {
      SecondAbove(g, |f|, b.transitions, t);
    }
  }

  /** The states of the union are numbered without gaps, so their number bounds them. */
  lemma StatesCounted(c: Automaton, a: Automaton, f: Numbering, fs: seq<nat>, b: Automaton, g: Numbering, gs: seq<nat>,
                      keep: bool)
    requires UnionOf(c, a, f, 0, b, g, keep) && NumbersFor(f, a, true, fs) && NumbersFor(g, b, keep, gs)
    ensures |States(c)| == |f| + |g|
  {
    hide UnionOf, Numbered, StatesMet, NumbersFor;
    var n := |f| + |g|;
    forall q: nat | q < n
      ensures q in States(c)
    {
      NumberIsState(c, a, f, fs, b, g, gs, keep, q);
    }
    forall q | q in States(c)
      ensures q < n
    {
      StateIsNumber(c, a, f, fs, b, g, gs, keep, q);
    }
    var below := StatesBelow(n);
    assert States(c) == below;
    BelowCounted(n);
  }

  lemma {:induction false} BelowCounted(n: nat)
    ensures |StatesBelow(n)| == n
  {
    if n > 0 {
      BelowCounted(n - 1);
    }
  }

  lemma {:induction false} MetSomewhere(ts: seq<Transition>, x: nat) returns (t: Transition)
    requires x in StatesMet(ts)
    ensures t in ts && (x == t.rhs || x in t.lhs)
    decreases |ts|
  {
    t := ts[|ts| - 1];
    if !(x == t.rhs || x in t.lhs) {
      t := MetSomewhere(ts[..|ts| - 1], x);
    }
  }

  lemma CopyHasState(f: Numbering, offset: nat, c: Automaton, t: Transition, x: nat)
    requires CopyOf(f, offset, t) in c.transitions && (x == t.rhs || x in t.lhs)
    ensures At(f, offset, x) in States(c)
  {
    if x != t.rhs {
      var i :| 0 <= i < |t.lhs| && t.lhs[i] == x;
      assert CopyOf(f, offset, t).lhs[i] == At(f, offset, x);
    }
  }

  lemma NumberIsState(c: Automaton, a: Automaton, f: Numbering, fs: seq<nat>, b: Automaton, g: Numbering, gs: seq<nat>,
                      keep: bool, q: nat)
    requires UnionOf(c, a, f, 0, b, g, keep) && NumbersFor(f, a, true, fs) && NumbersFor(g, b, keep, gs)
    requires q < |f| + |g|
    ensures q in States(c)
  {
    hide Numbered, StatesMet, States, CopyOf, Lists, UnionOf;
    FinalsHave(f, a, true, fs);
    FinalsHave(g, b, keep, gs);
    if q < |f| {
      assert IsNumber(f, q);
      var x :| x in f && f[x] == q;
      if x in StatesMet(a.transitions) {
        var t := MetSomewhere(a.transitions, x);
        UnionTransitions(c, a, f, b, g, keep, CopyOf(f, 0, t));
        CopyHasState(f, 0, c, t, x);
      } else {
        FinalIsState(c, a, f, b, g, keep, q, x);
      }
    } else {
      assert IsNumber(g, q - |f|);
      var x :| x in g && g[x] == q - |f|;
      if x in StatesMet(b.transitions) {
        var t := MetSomewhere(b.transitions, x);
        UnionTransitions(c, a, f, b, g, keep, CopyOf(g, |f|, t));
        CopyHasState(g, |f|, c, t, x);
      } else {
        FinalIsState(c, a, f, b, g, keep, q, x);
      }
    }
  }

  lemma FinalIsState(c: Automaton, a: Automaton, f: Numbering, b: Automaton, g: Numbering, keep: bool, q: nat, x: nat)
    requires UnionOf(c, a, f, 0, b, g, keep)
    requires (x in a.finals && q == At(f, 0, x)) || (keep && x in b.finals && q == At(g, |f|, x))
    ensures q in States(c)
  {
    assert q in c.finals;
  }

  lemma StateIsNumber(c: Automaton, a: Automaton, f: Numbering, fs: seq<nat>, b: Automaton, g: Numbering, gs: seq<nat>,
                      keep: bool, q: nat)
    requires UnionOf(c, a, f, 0, b, g, keep) && NumbersFor(f, a, true, fs) && NumbersFor(g, b, keep, gs)
    requires q in States(c)
    ensures q < |f| + |g|
  {
    hide Numbered, StatesMet, CopyOf, Lists;
    FinalsHave(f, a, true, fs);
    FinalsHave(g, b, keep, gs);
    if q !in c.finals {
      var t :| t in c.transitions && (q == t.rhs || q in t.lhs);
      UnionTransitions(c, a, f, b, g, keep, t);
      if IsCopy(f, 0, a.transitions, t) {
        FirstBelow(f, a.transitions, t);
      } else {
        SecondAbove(g, |f|, b.transitions, t);
      }
    }
  }
}
