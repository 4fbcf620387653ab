/** The root graph of a forest automaton: what it stores for each root, and which roots hang together. */
module RootGraph {

  /** The all-ones word, used for "no selector" and "no index". */
  const NONE: nat := 0xFFFF_FFFF_FFFF_FFFF

  type Word = n: nat | n <= NONE witness 0

  datatype CutpointInfo = CutpointInfo(root: nat, refCount: nat, selCount: nat, refInherited: bool,
                                       fwdSelectors: set<Word>, bwdSelector: Word, defines: set<Word>)

  datatype RootInfo = RootInfo(valid: bool, signature: seq<CutpointInfo>, bwdMap: map<Word, nat>)

  type ConnectionData = seq<RootInfo>

  /** The roots that `x` reaches forward. */
  ghost function Succ(data: ConnectionData, x: nat): set<nat>
    requires x < |data|
  {
    set i | 0 <= i < |data[x].signature| :: data[x].signature[i].root
  }

  /** The roots that a selector of `x` is said to lead back to. */
  ghost function Pred(data: ConnectionData, x: nat): set<nat>
    requires x < |data|
  {
    set sel | sel in data[x].bwdMap :: data[x].bwdMap[sel]
  }

  ghost function Near(data: ConnectionData, x: nat): set<nat>
    requires x < |data|
  {
    Succ(data, x) + Pred(data, x)
  }

  ghost predicate Closed(data: ConnectionData, roots: set<nat>) {
    forall x {:trigger Near(data, x)} :: x in roots && x < |data| ==> Near(data, x) <= roots
  }

  /** The roots of the forest lead, either way, only to one another, and back only to roots that do reach forward. */
  ghost predicate Coherent(data: ConnectionData, forest: set<nat>) {
    && forest <= All(data) && Closed(data, forest)
    && forall x, p {:trigger p in Pred(data, x)} :: x in forest && p in forest && p in Pred(data, x) ==>
      x in Succ(data, p)
  }

  /** The least set that contains `from` and is closed under edges both ways. */
  ghost predicate LeastClosed(data: ConnectionData, from: set<nat>, roots: set<nat>) {
    && Closed(data, roots) && from <= roots
    && forall others :: Closed(data, others) && from <= others ==> roots <= others
  }

  lemma LeastClosedUnique(data: ConnectionData, from: set<nat>, one: set<nat>, other: set<nat>)
    requires LeastClosed(data, from, one) && LeastClosed(data, from, other)
    ensures one == other
  {
  }

  // ---------- what one traversal adds ----------

  ghost function All(data: ConnectionData): set<nat> {
    set x {:trigger data[x]} | 0 <= x < |data|
  }

  /** From `before` to `after`: all that is new has all its neighbours, and every closed set around `c` covers it. */
  ghost predicate Explored(data: ConnectionData, before: set<nat>, after: set<nat>, c: nat) {
    && before <= after <= All(data) && c in after
    && (forall x {:trigger Near(data, x)} :: x in after && x !in before ==> Near(data, x) <= after)
    && forall others :: Closed(data, others) && c in others ==> after <= before + others
  }

  /** The same, but for `c` itself, whose neighbours `done` are there. */
  ghost predicate Exploring(data: ConnectionData, before: set<nat>, now: set<nat>, c: nat, done: set<nat>) {
    && before <= now <= All(data) && c in now && c !in before && done <= now
    && (forall x {:trigger Near(data, x)} :: x in now && x !in before && x != c ==> Near(data, x) <= now)
    && forall others :: Closed(data, others) && c in others ==> now <= before + others
  }

  lemma ExploringStart(data: ConnectionData, before: set<nat>, c: nat)
    requires c < |data| && before <= All(data) && c !in before
    ensures Exploring(data, before, before + {c}, c, {})
  {
  }

  /** A further exploration from a root that every closed set around `c` has. */
  lemma ExploringMore(data: ConnectionData, before: set<nat>, now: set<nat>, after: set<nat>, c: nat, done: set<nat>,
                      t: nat, reached: nat)
    requires Exploring(data, before, now, c, done) && Explored(data, now, after, t) && reached in after
    requires forall others :: Closed(data, others) && c in others ==> t in others
    ensures Exploring(data, before, after, c, done + {reached})
  {
    forall x | x in after && x !in before && x != c
      ensures Near(data, x) <= after
    {
      if x in now {
        assert Near(data, x) <= now;
      }
    }
  }

  lemma ExploringDone(data: ConnectionData, before: set<nat>, now: set<nat>, c: nat)
    requires c < |data| && Exploring(data, before, now, c, Near(data, c))
    ensures Explored(data, before, now, c)
  {
  }

  // ---------- climbing ----------

  /** A forward path through roots not visited. */
  ghost predicate FreshPath(data: ConnectionData, visited: set<nat>, path: seq<nat>) {
    && path != []
    && (forall k :: 0 <= k < |path| ==> path[k] < |data| && path[k] !in visited)
    && forall k :: 0 <= k < |path| - 1 ==> path[k + 1] in Succ(data, path[k])
  }

  /** An exploration from the start of such a path gets to its end. */
  lemma {:induction false} FreshPathExplored(data: ConnectionData, before: set<nat>, after: set<nat>, path: seq<nat>,
                                             k: nat)
    requires FreshPath(data, before, path) && Explored(data, before, after, path[0]) && k < |path|
    ensures path[k] in after
    decreases k
  {
    if k > 0 {
      FreshPathExplored(data, before, after, path, k - 1);
      assert path[k - 1 + 1] in Near(data, path[k - 1]);
    }
  }

  // ---------- the order ----------

  /** What was appended to the order is each newly visited root once. */
  ghost predicate Listed(order: seq<nat>, order': seq<nat>, before: set<nat>, after: set<nat>) {
    && |order| <= |order'| && order'[..|order|] == order
    && (forall k :: |order| <= k < |order'| ==> order'[k] in after && order'[k] !in before)
    && (forall k, l :: |order| <= k < l < |order'| ==> order'[k] != order'[l])
    && forall x {:trigger ListedAfter(order', |order|, x)} :: x in after && x !in before ==>
      ListedAfter(order', |order|, x)
  }

  ghost predicate ListedAfter(order: seq<nat>, n: nat, x: nat) {
    exists k :: n <= k < |order| && order[k] == x
  }

  lemma ListedMore(o: seq<nat>, o': seq<nat>, o'': seq<nat>, a: set<nat>, b: set<nat>, c: set<nat>)
    requires Listed(o, o', a, b) && Listed(o', o'', b, c) && a <= b <= c
    ensures Listed(o, o'', a, c)
  {
    assert o''[..|o|] == o''[..|o'|][..|o|];
    assert forall k :: 0 <= k < |o'| ==> o''[k] == o''[..|o'|][k] == o'[k];
    forall x | x in c && x !in a
      ensures ListedAfter(o'', |o|, x)
    {
      if x in b {
        assert ListedAfter(o', |o|, x);
        var k :| |o| <= k < |o'| && o'[k] == x;
        assert o''[k] == x;
      } else {
        assert ListedAfter(o'', |o'|, x);
        var k :| |o'| <= k < |o''| && o''[k] == x;
      }
    }
  }

  ghost predicate RefersTo(data: ConnectionData, x: nat, y: nat) {
    x < |data| && exists i :: 0 <= i < |data[x].signature| && data[x].signature[i].root == y
  }

  /** Some root earlier in the order refers to the `k`th. */
  ghost predicate RefBefore(data: ConnectionData, order: seq<nat>, k: nat)
    requires k < |order|
  {
    exists l :: 0 <= l < k && RefersTo(data, order[l], order[k])
  }

  /** From the `n`th on, every unmarked root of the order has a root before it that refers to it. */
  ghost predicate Preceded(data: ConnectionData, order: seq<nat>, n: nat, marked: set<nat>) {
    forall k {:trigger RefBefore(data, order, k)} :: n <= k < |order| && order[k] !in marked ==>
      RefBefore(data, order, k)
  }

  /** More of the order, the first of which is marked or referred to. */
  lemma PrecededMore(data: ConnectionData, order: seq<nat>, order': seq<nat>, n: nat, marked: set<nat>,
                     marked': set<nat>)
    requires Preceded(data, order, n, marked) && marked <= marked'
    requires |order| <= |order'| && order'[..|order|] == order && Preceded(data, order', |order| + 1, marked')
    requires |order| < |order'| && order'[|order|] !in marked' ==> RefBefore(data, order', |order|)
    ensures Preceded(data, order', n, marked')
  {
    forall k | n <= k < |order'| && order'[k] !in marked'
      ensures RefBefore(data, order', k)
    {
      assert forall l :: 0 <= l < |order| ==> order'[l] == order'[..|order|][l] == order[l];
      if k < |order| {
        assert RefBefore(data, order, k);
        var l :| 0 <= l < k && RefersTo(data, order[l], order[k]);
        assert order'[l] == order[l];
      }
    }
  }

  // ---------- marks ----------

  /** The `i`th entry of the signature of `x`. */
  datatype Ref = Ref(x: nat, i: nat)

  ghost predicate IsRef(data: ConnectionData, p: Ref) {
    p.x < |data| && p.i < |data[p.x].signature|
  }

  ghost function Target(data: ConnectionData, p: Ref): nat
    requires IsRef(data, p)
  {
    data[p.x].signature[p.i].root
  }

  ghost predicate NoneTo(data: ConnectionData, refs: set<Ref>, r: nat) {
    forall p :: p in refs && IsRef(data, p) ==> Target(data, p) != r
  }

  ghost predicate OneTo(data: ConnectionData, refs: set<Ref>, r: nat) {
    exists p :: OnlyOne(data, refs, r, p)
  }

  /** Of the references `refs` exactly `p` is to `r`, and it counts for one. */
  ghost predicate OnlyOne(data: ConnectionData, refs: set<Ref>, r: nat, p: Ref) {
    && p in refs && IsRef(data, p) && Target(data, p) == r && data[p.x].signature[p.i].refCount <= 1
    && p.x != r
    && forall q :: q in refs && IsRef(data, q) && Target(data, q) == r ==> q == p
  }

  ghost function RefsOf(data: ConnectionData, roots: set<nat>): (r: set<Ref>)
    ensures forall p :: p in r <==> IsRef(data, p) && p.x in roots
  {
    set x, i | x in roots && 0 <= x < |data| && 0 <= i < |data[x].signature| :: Ref(x, i)
  }

  /** Of the references `refs`, an unmarked root has exactly one if it is in `newly`, and none otherwise. */
  ghost predicate MarksTell(data: ConnectionData, refs: set<Ref>, newly: set<nat>, marked: set<nat>) {
    forall r {:trigger Told(data, refs, newly, marked, r)} :: Told(data, refs, newly, marked, r)
  }

  ghost predicate Told(data: ConnectionData, refs: set<Ref>, newly: set<nat>, marked: set<nat>, r: nat) {
    r !in marked ==> if r in newly then OneTo(data, refs, r) else NoneTo(data, refs, r)
  }

  /** References `refs` to roots in `now`, then references `more` met while adding the roots `later`. */
  lemma MarksJoin(data: ConnectionData, refs: set<Ref>, more: set<Ref>, newly: set<nat>, later: set<nat>, now: set<nat>,
                  marked: set<nat>, marked': set<nat>)
    requires MarksTell(data, refs, newly, marked) && MarksTell(data, more, later, marked') && marked <= marked'
    requires newly <= now && later !! now && InTargets(data, refs, now)
    ensures MarksTell(data, refs + more, newly + later, marked')
  {
    forall r
      ensures Told(data, refs + more, newly + later, marked', r)
    {
      assert Told(data, refs, newly, marked, r) && Told(data, more, later, marked', r);
      if r in marked' {
      } else if r in newly {
        var p :| OnlyOne(data, refs, r, p);
        assert OnlyOne(data, refs + more, r, p);
      } else if r in later {
        var p :| OnlyOne(data, more, r, p);
        assert OnlyOne(data, refs + more, r, p);
      }
    }
  }

  ghost predicate InTargets(data: ConnectionData, refs: set<Ref>, now: set<nat>) {
    forall p :: p in refs && IsRef(data, p) ==> Target(data, p) in now
  }

  // ---------- why a root is marked ----------

  /** It is referred to, but not by one reference only that is not its own and counts for one. */
  ghost predicate Several(data: ConnectionData, refs: set<Ref>, r: nat) {
    !NoneTo(data, refs, r) && !OneTo(data, refs, r)
  }

  /** `path` leads forward from the `l`th root of the order, over roots that come no earlier, to a root from which a
      selector leads back to it from the `k`th, whose references were all followed before. */
  ghost predicate ClimbAt(data: ConnectionData, order: seq<nat>, l: nat, k: nat, path: seq<nat>) {
    && k < l < |order| && order[k] < |data| && path != [] && path[0] == order[l]
    && FreshPath(data, (set x | x in order[..l]), path) && path[|path| - 1] in Pred(data, order[k])
    && forall y :: y in Succ(data, order[k]) ==> y in order[..l]
  }

  ghost predicate Climbed(data: ConnectionData, order: seq<nat>, r: nat) {
    exists l: nat, k: nat, path :: ClimbAt(data, order, l, k, path) && order[l] == r
  }

  lemma ClimbedMore(data: ConnectionData, order: seq<nat>, order': seq<nat>, r: nat)
    requires Climbed(data, order, r) && |order| <= |order'| && order'[..|order|] == order
    ensures Climbed(data, order', r)
  {
    var l: nat, k: nat, path :| ClimbAt(data, order, l, k, path) && order[l] == r;
    assert order'[..l] == order'[..|order|][..l] == order[..l];
    assert order'[l] == order'[..|order|][l] && order'[k] == order'[..|order|][k];
    assert ClimbAt(data, order', l, k, path);
  }

  /** A root marked on the way either was climbed to, or there are several references to it: to one that is new there
      are these among `refs`, to another at least one. */
  ghost predicate Reasoned(data: ConnectionData, refs: set<Ref>, newly: set<nat>, order: seq<nat>, marked: set<nat>,
                           marked': set<nat>) {
    forall r {:trigger Reason(data, refs, newly, order, r)} :: r in marked' && r !in marked ==>
      Reason(data, refs, newly, order, r)
  }

  ghost predicate Reason(data: ConnectionData, refs: set<Ref>, newly: set<nat>, order: seq<nat>, r: nat) {
    if r in newly then Several(data, refs, r) || Climbed(data, order, r) else !NoneTo(data, refs, r)
  }

  lemma SeveralMore(data: ConnectionData, refs: set<Ref>, more: set<Ref>, r: nat)
    requires Several(data, refs, r)
    ensures Several(data, refs + more, r)
  {
    var p :| p in refs && IsRef(data, p) && Target(data, p) == r;
    assert p in refs + more;
    if q :| OnlyOne(data, refs + more, r, q) {
      assert q == p;
      assert OnlyOne(data, refs, r, p);
    }
  }

  lemma TwoAreSeveral(data: ConnectionData, refs: set<Ref>, more: set<Ref>, r: nat)
    requires refs !! more && !NoneTo(data, refs, r) && !NoneTo(data, more, r)
    ensures Several(data, refs + more, r)
  {
    var p :| p in refs && IsRef(data, p) && Target(data, p) == r;
    var q :| q in more && IsRef(data, q) && Target(data, q) == r;
    assert p in refs + more && q in refs + more;
  }

  lemma OneIsSome(data: ConnectionData, refs: set<Ref>, r: nat)
    requires OneTo(data, refs, r)
    ensures !NoneTo(data, refs, r)
  {}

  /** Marks made for `refs`, then marks made for `more`. */
  lemma ReasonsJoin(data: ConnectionData, refs: set<Ref>, more: set<Ref>, newly: set<nat>, later: set<nat>,
                    now: set<nat>, order: seq<nat>, order': seq<nat>, marked: set<nat>, marked': set<nat>,
                    marked'': set<nat>)
    requires MarksTell(data, refs, newly, marked') && refs !! more && InTargets(data, refs, now)
    requires newly <= now && later !! now && |order| <= |order'| && order'[..|order|] == order
    requires Reasoned(data, refs, newly, order, marked, marked')
    requires Reasoned(data, more, later, order', marked', marked'')
    ensures Reasoned(data, refs + more, newly + later, order', marked, marked'')
  {
    hide NoneTo, OneTo, Several, Climbed;
    forall r | r in marked'' && r !in marked
      ensures Reason(data, refs + more, newly + later, order', r)
    {
      NoneToMore(data, refs, more, r);
      if r !in now {
        NoneInTargets(data, refs, now, r);
      }
      if r in marked' {
        assert Reason(data, refs, newly, order, r);
        if r in newly {
          if Several(data, refs, r) {
            SeveralMore(data, refs, more, r);
          } else {
            ClimbedMore(data, order, order', r);
          }
        }
      } else {
        assert Reason(data, more, later, order', r) && Told(data, refs, newly, marked', r);
        if r in later {
          if Several(data, more, r) {
            SeveralMore(data, more, refs, r);
            assert more + refs == refs + more;
          }
        } else if r in newly {
          OneIsSome(data, refs, r);
          TwoAreSeveral(data, refs, more, r);
        }
      }
    }
  }

  lemma NoneToMore(data: ConnectionData, refs: set<Ref>, more: set<Ref>, r: nat)
    ensures NoneTo(data, refs + more, r) <==> NoneTo(data, refs, r) && NoneTo(data, more, r)
  {}

  lemma NoneInTargets(data: ConnectionData, refs: set<Ref>, now: set<nat>, r: nat)
    requires InTargets(data, refs, now) && r !in now
    ensures NoneTo(data, refs, r)
  {}

  // ---------- what a traversal marks ----------

  /** What a traversal from `c` leaves marked. */
  ghost predicate Remarked(data: ConnectionData, before: set<nat>, after: set<nat>, c: nat, marked: set<nat>,
                           marked': set<nat>)
  {
    && marked <= marked' && (c in before ==> c in marked')
    && MarksTell(data, RefsOf(data, after - before), after - before - {c}, marked')
  }

  /** The reference `p` to `t` and what a traversal from there added. */
  lemma MarksThroughRef(data: ConnectionData, now: set<nat>, after: set<nat>, p: Ref, marked: set<nat>,
                        marked': set<nat>,
                        marked'': set<nat>)
    requires IsRef(data, p) && p.x in now && Explored(data, now, after, Target(data, p))
    requires Remarked(data, now, after, Target(data, p), marked, marked')
    requires marked'' == marked' + if data[p.x].signature[p.i].refCount > 1 then {Target(data, p)} else {}
    ensures MarksTell(data, RefsOf(data, after - now) + {p}, after - now, marked'')
  {
    var refs, t := RefsOf(data, after - now), Target(data, p);
    forall r
      ensures Told(data, refs + {p}, after - now, marked'', r)
    {
      assert Told(data, refs, after - now - {t}, marked', r);
      if r in marked'' {
      } else if r == t {
        assert OnlyOne(data, refs + {p}, r, p);
      } else if r in after - now {
        var q :| OnlyOne(data, refs, r, q);
        assert OnlyOne(data, refs + {p}, r, q);
      }
    }
  }

  // ---------- the traversal ----------

  ghost function PrefixRefs(c: nat, i: nat): set<Ref> {
    set j | 0 <= j < i :: Ref(c, j)
  }

  /** Visited, listed and marked from root `c` on, the first `i` entries of its signature and some
      of its backward map followed. */
  ghost predicate Midway(data: ConnectionData, before: State, now: State, c: nat, i: nat, done: set<nat>)
  {
    && c < |data| && i <= |data[c].signature|
    && Exploring(data, before.visited, now.visited, c, done)
    && Listed(before.order, now.order, before.visited, now.visited)
    && before.marked <= now.marked
    && Preceded(data, now.order, |before.order| + 1, now.marked)
    && |before.order| < |now.order| && now.order[|before.order|] == c
    && (forall j :: 0 <= j < i ==> data[c].signature[j].root in now.visited)
    && MarksTell(data, RefsOf(data, now.visited - before.visited - {c}) + PrefixRefs(c, i),
         now.visited - before.visited - {c}, now.marked)
    && (WellListed(before) ==>
         Reasoned(data, RefsOf(data, now.visited - before.visited - {c}) + PrefixRefs(c, i),
           now.visited - before.visited - {c}, now.order, before.marked, now.marked))
  }

  /** The order has just what was visited. */
  ghost predicate WellListed(s: State) {
    forall x :: x in s.order <==> x in s.visited
  }

  lemma ListedWell(before: State, now: State)
    requires WellListed(before) && before.visited <= now.visited
    requires Listed(before.order, now.order, before.visited, now.visited)
    ensures WellListed(now)
  {
    forall x
      ensures x in now.order <==> x in now.visited
    {
      if x in before.visited {
        assert x in now.order[..|before.order|];
      } else if x in now.visited {
        assert ListedAfter(now.order, |before.order|, x);
      }
      if k :| 0 <= k < |now.order| && now.order[k] == x {
        assert k < |before.order| ==> now.order[..|before.order|][k] == x;
      }
    }
  }

  /** Marks made by a traversal from `c`, which is marked also if it was visited before. */
  ghost predicate VisitReasoned(data: ConnectionData, before: State, after: State, c: nat) {
    var newly := after.visited - before.visited;
    Reasoned(data, RefsOf(data, newly), newly - {c}, after.order,
      before.marked + if c in before.visited then {c} else {}, after.marked)
  }

  datatype State = State(visited: set<nat>, order: seq<nat>, marked: set<nat>)

  /** A traversal from `c` was made. */
  ghost predicate Visited(data: ConnectionData, before: State, after: State, c: nat) {
    && Explored(data, before.visited, after.visited, c)
    && Listed(before.order, after.order, before.visited, after.visited)
    && Remarked(data, before.visited, after.visited, c, before.marked, after.marked)
    && Preceded(data, after.order, |before.order| + 1, after.marked)
    && (|before.order| < |after.order| ==> after.order[|before.order|] == c)
    && (WellListed(before) ==> VisitReasoned(data, before, after, c))
  }

  lemma MidwayStart(data: ConnectionData, before: State, now: State, c: nat)
    requires c < |data| && before.visited <= All(data) && c !in before.visited
    requires now == State(before.visited + {c}, before.order + [c], before.marked)
    ensures Midway(data, before, now, c, 0, {})
  {
    ExploringStart(data, before.visited, c);
    assert now.order[|before.order|] == c;
    forall r
      ensures Told(data, RefsOf(data, now.visited - before.visited - {c}) + PrefixRefs(c, 0),
                now.visited - before.visited - {c}, now.marked, r)
    {
    }
  }

  lemma MidwayTargets(data: ConnectionData, before: State, now: State, c: nat, i: nat, done: set<nat>)
    requires Midway(data, before, now, c, i, done)
    ensures InTargets(data, RefsOf(data, now.visited - before.visited - {c}) + PrefixRefs(c, i), now.visited)
  {
    forall p | p in RefsOf(data, now.visited - before.visited - {c}) && IsRef(data, p)
      ensures Target(data, p) in now.visited
    {
      assert Target(data, p) in Near(data, p.x);
    }
  }

  /** The roots that are new, without `c`, and their references, when more get visited. */
  lemma NewlySplit(data: ConnectionData, before: set<nat>, now: set<nat>, after: set<nat>, c: nat, i: nat)
    requires before <= now <= after && c in now
    ensures now - before - {c} + (after - now) == after - before - {c}
    ensures RefsOf(data, now - before - {c}) + PrefixRefs(c, i) + RefsOf(data, after - now) ==
            RefsOf(data, after - before - {c}) + PrefixRefs(c, i)
  {
  }

  lemma NextRef(refs: set<Ref>, c: nat, i: nat)
    ensures refs + {Ref(c, i)} + PrefixRefs(c, i) == refs + PrefixRefs(c, i + 1)
  {
    assert PrefixRefs(c, i + 1) == PrefixRefs(c, i) + {Ref(c, i)};
  }

  lemma MidwayMarks(data: ConnectionData, before: State, now: State, after: set<nat>, marked: set<nat>, c: nat, i: nat,
                    j: nat, done: set<nat>, more: set<Ref>)
    requires Midway(data, before, now, c, i, done) && now.visited <= after && now.marked <= marked
    requires MarksTell(data, more, after - now.visited, marked)
    requires more + PrefixRefs(c, i) == RefsOf(data, after - now.visited) + PrefixRefs(c, j)
    ensures MarksTell(data, RefsOf(data, after - before.visited - {c}) + PrefixRefs(c, j), after - before.visited - {c},
              marked)
  {
    var refs, newly := RefsOf(data, now.visited - before.visited - {c}), now.visited - before.visited - {c};
    MidwayTargets(data, before, now, c, i, done);
    MarksJoin(data, refs + PrefixRefs(c, i), more, newly, after - now.visited, now.visited, now.marked, marked);
    NewlySplit(data, before.visited, now.visited, after, c, j);
    assert refs + PrefixRefs(c, i) + more == refs + PrefixRefs(c, j) + RefsOf(data, after - now.visited);
  }

  lemma ReferredFromStart(data: ConnectionData, before: seq<nat>, now: seq<nat>, after: seq<nat>, c: nat, t: nat)
    requires RefersTo(data, c, t) && |before| < |now| <= |after| && now[|before|] == c && after[..|now|] == now
    requires |now| < |after| ==> after[|now|] == t
    ensures |now| < |after| ==> RefBefore(data, after, |now|)
  {
    assert after[|before|] == after[..|now|][|before|] == c;
  }

  lemma MidwayReasons(data: ConnectionData, before: State, now: State, after: State, c: nat, i: nat, j: nat,
                      done: set<nat>, more: set<Ref>)
    requires Midway(data, before, now, c, i, done) && WellListed(before) && now.visited <= after.visited
    requires |now.order| <= |after.order| && after.order[..|now.order|] == now.order
    requires Reasoned(data, more, after.visited - now.visited, after.order, now.marked, after.marked)
    requires more + PrefixRefs(c, i) == RefsOf(data, after.visited - now.visited) + PrefixRefs(c, j)
    requires more !! RefsOf(data, now.visited - before.visited - {c}) + PrefixRefs(c, i)
    ensures Reasoned(data, RefsOf(data, after.visited - before.visited - {c}) + PrefixRefs(c, j),
              after.visited - before.visited - {c}, after.order, before.marked, after.marked)
  {
    hide Reasoned;
    var refs, newly := RefsOf(data, now.visited - before.visited - {c}), now.visited - before.visited - {c};
    MidwayTargets(data, before, now, c, i, done);
    ReasonsJoin(data, refs + PrefixRefs(c, i), more, newly, after.visited - now.visited, now.visited, now.order,
      after.order, before.marked, now.marked, after.marked);
    NewlySplit(data, before.visited, now.visited, after.visited, c, j);
    assert refs + PrefixRefs(c, i) + more == refs + PrefixRefs(c, j) + RefsOf(data, after.visited - now.visited);
  }

  /** The marks that a reference makes, itself or by the traversal from its target. */
  lemma ReasonsThroughRef(data: ConnectionData, now: State, after: State, end: State, p: Ref)
    requires IsRef(data, p) && p.x in now.visited && WellListed(now)
    requires Visited(data, now, after, Target(data, p))
    requires end == after.(marked := after.marked +
      if data[p.x].signature[p.i].refCount > 1 then {Target(data, p)} else {})
    ensures Reasoned(data, RefsOf(data, after.visited - now.visited) + {p}, after.visited - now.visited, end.order,
              now.marked, end.marked)
  {
    hide Climbed, Several, NoneTo;
    var refs, t := RefsOf(data, after.visited - now.visited), Target(data, p);
    RefToTarget(data, p);
    forall r | r in end.marked && r !in now.marked
      ensures Reason(data, refs + {p}, after.visited - now.visited, end.order, r)
    {
      NoneToMore(data, refs, {p}, r);
      if r == t {
        if t !in now.visited {
          if data[p.x].signature[p.i].refCount > 1 {
            CountsAsSeveral(data, refs, p);
          } else {
            assert Reason(data, refs, after.visited - now.visited - {t}, after.order, r);
            TwoAreSeveral(data, refs, {p}, r);
          }
        }
      } else {
        assert Reason(data, refs, after.visited - now.visited - {t}, after.order, r);
        if Several(data, refs, r) {
          SeveralMore(data, refs, {p}, r);
        }
      }
    }
  }

  lemma RefToTarget(data: ConnectionData, p: Ref)
    requires IsRef(data, p)
    ensures !NoneTo(data, {p}, Target(data, p))
  {}

  lemma CountsAsSeveral(data: ConnectionData, refs: set<Ref>, p: Ref)
    requires IsRef(data, p) && data[p.x].signature[p.i].refCount > 1
    ensures Several(data, refs + {p}, Target(data, p))
  {
    assert p in refs + {p};
  }

  /** The marks of a climb and of the traversal from its end. */
  lemma ReasonsClimbed(data: ConnectionData, now: State, top: nat, after: State, more: set<Ref>)
    requires WellListed(now) && Visited(data, now.(marked := now.marked + {top}), after, top)
    requires top !in now.visited && Climbed(data, after.order, top)
    requires more == RefsOf(data, after.visited - now.visited)
    ensures Reasoned(data, more, after.visited - now.visited, after.order, now.marked, after.marked)
  {
    hide Climbed, Several, NoneTo;
    forall r | r in after.marked && r !in now.marked
      ensures Reason(data, more, after.visited - now.visited, after.order, r)
    {
      if r != top {
        assert Reason(data, more, after.visited - now.visited - {top}, after.order, r);
      }
    }
  }

  /** The end of a climb, which is visited next. */
  lemma ClimbEnds(data: ConnectionData, before: State, now: State, after: State, c: nat, done: set<nat>,
                  path: seq<nat>)
    requires c < |data| && Midway(data, before, now, c, |data[c].signature|, done) && WellListed(before)
    requires FreshPath(data, now.visited, path) && path[|path| - 1] in Pred(data, c)
    requires Listed(now.order, after.order, now.visited, after.visited) && path[0] in after.visited
    requires |now.order| < |after.order| ==> after.order[|now.order|] == path[0]
    ensures Climbed(data, after.order, path[0])
  {
    ListedWell(before, now);
    assert ListedAfter(after.order, |now.order|, path[0]);
    var l, k := |now.order|, |before.order|;
    assert after.order[..l] == now.order && after.order[k] == now.order[k] == c;
    assert ClimbAt(data, after.order, l, k, path);
  }

  /** The next entry of the signature: its traversal, and a mark if it counts for several. */
  lemma MidwayForward(data: ConnectionData, before: State, now: State, after: State, end: State, c: nat, i: nat,
                      done: set<nat>)
    requires Midway(data, before, now, c, i, done) && i < |data[c].signature|
    requires
      var entry := data[c].signature[i];
      && Visited(data, now, after, entry.root)
      && end == after.(marked := after.marked + if entry.refCount > 1 then {entry.root} else {})
    ensures Midway(data, before, end, c, i + 1, done)
  {
    var t, p := data[c].signature[i].root, Ref(c, i);
    assert t in Near(data, c);
    ExploringMore(data, before.visited, now.visited, after.visited, c, done, t, t);
    ListedMore(before.order, now.order, after.order, before.visited, now.visited, after.visited);
    ReferredFromStart(data, before.order, now.order, end.order, c, t);
    PrecededMore(data, now.order, end.order, |before.order| + 1, now.marked, end.marked);
    MarksThroughRef(data, now.visited, after.visited, p, now.marked, after.marked, end.marked);
    NextRef(RefsOf(data, after.visited - now.visited), c, i);
    MidwayMarks(data, before, now, after.visited, end.marked, c, i, i + 1, done,
      RefsOf(data, after.visited - now.visited) + {p});
    if WellListed(before) {
      ListedWell(before, now);
      ReasonsThroughRef(data, now, after, end, p);
      MidwayReasons(data, before, now, end, c, i, i + 1, done, RefsOf(data, after.visited - now.visited) + {p});
    }
  }

  /** A traversal from the marked root that a climb led to, from which `reached` hangs. */
  lemma MidwayClimbed(data: ConnectionData, before: State, now: State, top: nat, after: State, c: nat, done: set<nat>,
                      reached: nat)
    requires c < |data| && Midway(data, before, now, c, |data[c].signature|, done)
    requires Visited(data, now.(marked := now.marked + {top}), after, top) && reached in after.visited
    requires forall others :: Closed(data, others) && c in others ==> top in others
    requires top !in now.visited && (WellListed(before) ==> Climbed(data, after.order, top))
    ensures Midway(data, before, after, c, |data[c].signature|, done + {reached})
  {
    ExploringMore(data, before.visited, now.visited, after.visited, c, done, top, reached);
    ListedMore(before.order, now.order, after.order, before.visited, now.visited, after.visited);
    PrecededMore(data, now.order, after.order, |before.order| + 1, now.marked, after.marked);
    var n, more := |data[c].signature|, RefsOf(data, after.visited - now.visited);
    forall r
      ensures Told(data, more, after.visited - now.visited, after.marked, r)
    {
      assert Told(data, more, after.visited - now.visited - {top}, after.marked, r);
    }
    MidwayMarks(data, before, now, after.visited, after.marked, c, n, n, done, more);
    if WellListed(before) {
      ListedWell(before, now);
      ReasonsClimbed(data, now, top, after, more);
      MidwayReasons(data, before, now, after, c, n, n, done, more);
    }
  }

  lemma MidwayDone(data: ConnectionData, before: State, now: State, c: nat, done: set<nat>)
    requires c < |data| && Midway(data, before, now, c, |data[c].signature|, done) && Pred(data, c) <= done
    ensures Visited(data, before, now, c)
  {
    assert Near(data, c) <= now.visited;
    assert Exploring(data, before.visited, now.visited, c, Near(data, c));
    ExploringDone(data, before.visited, now.visited, c);
    assert RefsOf(data, now.visited - before.visited) ==
           RefsOf(data, now.visited - before.visited - {c}) + PrefixRefs(c, |data[c].signature|);
  }
}
