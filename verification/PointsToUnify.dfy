/** Joining nodes until nothing is left to be joined computes a congruence closure: the quotient of the graph by the
    least equivalence that contains the given pair and relates the successors of related nodes. */
module PointsToUnify {
  import opened PointsToGraph

  type Relation = set<(Node, Node)>

  predicate Chain(e: Relation, a: Node, b: Node, c: Node) {
    (a, b) in e && (b, c) in e
  }

  ghost predicate Equivalence(live: set<Node>, e: Relation) {
    && (forall n :: n in live ==> (n, n) in e)
    && (forall p :: p in e ==> (p.1, p.0) in e)
    && (forall a: Node, b: Node, c: Node :: Chain(e, a, b, c) ==> (a, c) in e)
  }

  /** Related nodes have related successors. */
  ghost predicate Compatible(out: Edges, e: Relation) {
    forall p :: p in e && p.0 in out && p.1 in out ==> (out[p.0], out[p.1]) in e
  }

  ghost predicate Congruence(g: Shape, e: Relation) {
    Equivalence(g.live, e) && Compatible(g.out, e)
  }

  /** The nodes that `rep` identifies. */
  ghost function Kernel(g: Shape, rep: map<Node, Node>): Relation
    requires rep.Keys == g.live
  {
    set a, b | a in g.live && b in g.live && rep[a] == rep[b] :: (a, b)
  }

  /** `rep` picks one live node of `g'` for each of `g`, itself for those still live. */
  ghost predicate Represents(g: Shape, rep: map<Node, Node>, g': Shape)
    requires WellFormed(g)
  {
    && rep.Keys == g.live
    && (forall n :: n in g.live ==> rep[n] in g'.live)
    && (forall m :: m in g'.live ==> m in rep && rep[m] == m)
    && g'.home.Keys == g.home.Keys && (forall u :: u in g.home ==> g'.home[u] == rep[g.home[u]])
  }

  /** `p` and `q` are the same but for what is still to be joined. */
  predicate Tied(p: Node, q: Node, todo: seq<(Node, Node)>) {
    p == q || (todo != [] && (todo[0] == (p, q) || todo[0] == (q, p)))
  }

  /** The edges of `g'` are those of `g` between representatives, but for what is still to be joined. */
  ghost predicate EdgesTied(g: Shape, rep: map<Node, Node>, g': Shape, todo: seq<(Node, Node)>)
    requires WellFormed(g) && rep.Keys == g.live
  {
    && (forall n :: n in g.out ==> rep[n] in g'.out && Tied(g'.out[rep[n]], rep[g.out[n]], todo))
    && (forall m :: m in g'.out ==> exists n :: n in g.out && rep[n] == m && g'.out[m] == rep[g.out[n]])
  }

  /** Every congruence that relates `x` and `y` relates each node to its representative, and what
      is still to be joined. */
  ghost predicate Forced(g: Shape, x: Node, y: Node, rep: map<Node, Node>, todo: seq<(Node, Node)>) {
    forall e :: Congruence(g, e) && (x, y) in e ==> ForcedIn(e, rep, todo)
  }

  ghost predicate ForcedIn(e: Relation, rep: map<Node, Node>, todo: seq<(Node, Node)>) {
    && (forall n :: n in rep ==> (n, rep[n]) in e)
    && (todo != [] ==> todo[0] in e)
  }

  /** `g'` is the quotient of `g` under `rep`, but for what is still to be joined. */
  ghost predicate Partial(g: Shape, x: Node, y: Node, rep: map<Node, Node>, g': Shape, todo: seq<(Node, Node)>)
    requires WellFormed(g) && x in g.live && y in g.live
  {
    && |todo| <= 1 && (todo != [] ==> todo[0].0 in g'.live && todo[0].1 in g'.live)
    && Represents(g, rep, g')
    && EdgesTied(g, rep, g', todo)
    && Tied(rep[x], rep[y], todo)
    && Forced(g, x, y, rep, todo)
  }

  /** `g'` is the quotient of `g` by the least congruence relating `x` and `y`, and `rep`
      takes nodes to their classes. */
  ghost predicate Quotient(g: Shape, x: Node, y: Node, rep: map<Node, Node>, g': Shape)
    requires WellFormed(g)
  {
    && Represents(g, rep, g')
    && EdgesTied(g, rep, g', [])
    && Congruence(g, Kernel(g, rep)) && (x, y) in Kernel(g, rep)
    && (forall e :: Congruence(g, e) && (x, y) in e ==> Kernel(g, rep) <= e)
  }

  function Itself(live: set<Node>): map<Node, Node> {
    map n | n in live :: n
  }

  lemma StartPartial(g: Shape, x: Node, y: Node)
    requires WellFormed(g) && x in g.live && y in g.live
    ensures Partial(g, x, y, Itself(g.live), g, [(x, y)])
  {}

  lemma KernelLeast(g: Shape, x: Node, y: Node, rep: map<Node, Node>, e: Relation)
    requires rep.Keys == g.live && Forced(g, x, y, rep, []) && Congruence(g, e) && (x, y) in e
    ensures Kernel(g, rep) <= e
  {
    forall p | p in Kernel(g, rep)
      ensures p in e
    {
      assert ForcedIn(e, rep, []);
      assert (p.1, rep[p.1]) in e;
      assert Chain(e, p.0, rep[p.0], p.1);
    }
  }

  lemma KernelCongruence(g: Shape, rep: map<Node, Node>, g': Shape)
    requires WellFormed(g) && rep.Keys == g.live && EdgesTied(g, rep, g', [])
    ensures Congruence(g, Kernel(g, rep))
  {
    var k := Kernel(g, rep);
    forall p | p in k && p.0 in g.out && p.1 in g.out
      ensures (g.out[p.0], g.out[p.1]) in k
    {
      assert rep[p.0] == rep[p.1];
    }
  }

  lemma PartialDone(g: Shape, x: Node, y: Node, rep: map<Node, Node>, g': Shape)
    requires WellFormed(g) && x in g.live && y in g.live && Partial(g, x, y, rep, g', [])
    ensures Quotient(g, x, y, rep, g')
  {
    KernelCongruence(g, rep, g');
    forall e | Congruence(g, e) && (x, y) in e
      ensures Kernel(g, rep) <= e
    {
      KernelLeast(g, x, y, rep, e);
    }
  }

  function Redirected(rep: map<Node, Node>, left: Node, right: Node): map<Node, Node> {
    map n | n in rep :: Redirect(rep[n], left, right)
  }

  /** Joining the one pending pair leaves the graph a quotient but for the pair that the join itself leaves. */
  lemma JoinPartial(g: Shape, x: Node, y: Node, rep: map<Node, Node>, g': Shape, left: Node, right: Node)
    requires WellFormed(g) && WellFormed(g') && x in g.live && y in g.live && Partial(g, x, y, rep, g', [(left, right)])
    ensures WellFormed(Joined(g', left, right))
    ensures Partial(g, x, y, Redirected(rep, left, right), Joined(g', left, right), JoinedTodo(g'.out, left, right))
  {
    JoinRepresents(g, rep, g', left, right);
    JoinEdgesTied(g, rep, g', left, right);
    JoinAllForced(g, x, y, rep, g', left, right);
    JoinTodoLive(g', left, right);
  }

  lemma JoinTodoLive(g: Shape, left: Node, right: Node)
    requires WellFormed(g) && left in g.live && right in g.live
    ensures var todo := JoinedTodo(g.out, left, right);
      |todo| <= 1 &&
        (todo != [] ==> todo[0].0 in Joined(g, left, right).live && todo[0].1 in Joined(g, left, right).live)
  {}

  lemma JoinAllForced(g: Shape, x: Node, y: Node, rep: map<Node, Node>, g': Shape, left: Node, right: Node)
    requires WellFormed(g) && WellFormed(g') && Represents(g, rep, g') && left in g'.live && right in g'.live
    requires EdgesTied(g, rep, g', [(left, right)]) && Forced(g, x, y, rep, [(left, right)])
    ensures Forced(g, x, y, Redirected(rep, left, right), JoinedTodo(g'.out, left, right))
  {
    forall e | Congruence(g, e) && (x, y) in e
      ensures ForcedIn(e, Redirected(rep, left, right), JoinedTodo(g'.out, left, right))
    {
      assert ForcedIn(e, rep, [(left, right)]);
      JoinForced(g, rep, g', left, right, e);
    }
  }

  lemma JoinRepresents(g: Shape, rep: map<Node, Node>, g': Shape, left: Node, right: Node)
    requires WellFormed(g) && WellFormed(g') && Represents(g, rep, g') && left in g'.live && right in g'.live
    ensures Represents(g, Redirected(rep, left, right), Joined(g', left, right)) && WellFormed(Joined(g', left, right))
  {}

  lemma JoinEdgesTied(g: Shape, rep: map<Node, Node>, g': Shape, left: Node, right: Node)
    requires WellFormed(g) && WellFormed(g') && Represents(g, rep, g') && left in g'.live && right in g'.live
    requires EdgesTied(g, rep, g', [(left, right)])
    ensures EdgesTied(g, Redirected(rep, left, right), Joined(g', left, right), JoinedTodo(g'.out, left, right))
  {
    var rep', j := Redirected(rep, left, right), Joined(g', left, right);
    forall n | n in g.out
      ensures rep'[n] in j.out && Tied(j.out[rep'[n]], rep'[g.out[n]], JoinedTodo(g'.out, left, right))
    {
      EdgeStaysTied(g'.out, rep[n], rep[g.out[n]], left, right);
    }
    forall m | m in j.out
      ensures exists n :: n in g.out && rep'[n] == m && j.out[m] == rep'[g.out[n]]
    {
      var n := JoinEdgeFrom(g, rep, g', left, right, m);
    }
  }

  /** An edge of the joined graph comes from an edge of the original one. */
  lemma JoinEdgeFrom(g: Shape, rep: map<Node, Node>, g': Shape, left: Node, right: Node, m: Node) returns (n: Node)
    requires WellFormed(g) && WellFormed(g') && Represents(g, rep, g')
    requires EdgesTied(g, rep, g', [(left, right)]) && m in Joined(g', left, right).out
    ensures n in g.out && Redirect(rep[n], left, right) == m
    ensures Joined(g', left, right).out[m] == Redirect(rep[g.out[n]], left, right)
  {
    var k := if left != right && m == left && left !in g'.out then right else m;
    n :| n in g.out && rep[n] == k && g'.out[k] == rep[g.out[n]];
  }

  /** Of one edge: what it leads to stays the same as `q` but for what the join leaves to be joined. */
  lemma EdgeStaysTied(out: Edges, n: Node, q: Node, left: Node, right: Node)
    requires n in out && Tied(out[n], q, [(left, right)])
    ensures var out' := if left == right then out else JoinedEdges(out, left, right);
      var n' := Redirect(n, left, right);
      n' in out' && Tied(out'[n'], Redirect(q, left, right), JoinedTodo(out, left, right))
  {
    assert Redirect(out[n], left, right) == Redirect(q, left, right);
  }

  /** A congruence that relates the joined nodes relates their successors. */
  lemma JoinForced(g: Shape, rep: map<Node, Node>, g': Shape, left: Node, right: Node, e: Relation)
    requires WellFormed(g) && WellFormed(g') && Represents(g, rep, g') && left in g'.live && right in g'.live
    requires EdgesTied(g, rep, g', [(left, right)])
    requires Congruence(g, e) && ForcedIn(e, rep, [(left, right)])
    ensures ForcedIn(e, Redirected(rep, left, right), JoinedTodo(g'.out, left, right))
  {
    assert (left, right) in e && (right, left) in e;
    forall n | n in rep
      ensures (n, Redirect(rep[n], left, right)) in e
    {
      assert (n, rep[n]) in e;
      assert rep[n] == right ==> Chain(e, n, right, left);
    }
    if left != right && left in g'.out && right in g'.out {
      var a :| a in g.out && rep[a] == left && g'.out[left] == rep[g.out[a]];
      var b :| b in g.out && rep[b] == right && g'.out[right] == rep[g.out[b]];
      SuccessorsForced(g, rep, e, a, b, left, right);
      RedirectForced(e, rep[g.out[a]], rep[g.out[b]], left, right);
    }
  }

  lemma SuccessorsForced(g: Shape, rep: map<Node, Node>, e: Relation, a: Node, b: Node, left: Node, right: Node)
    requires WellFormed(g) && rep.Keys == g.live && Congruence(g, e) && (left, right) in e
    requires forall n :: n in rep ==> (n, rep[n]) in e
    requires a in g.out && b in g.out && rep[a] == left && rep[b] == right
    ensures (rep[g.out[a]], rep[g.out[b]]) in e
  {
    assert (a, left) in e && (b, right) in e && (right, b) in e;
    assert Chain(e, a, left, right) && Chain(e, a, right, b);
    var s, t := g.out[a], g.out[b];
    assert (s, t) in e && (s, rep[s]) in e && (rep[s], s) in e && (t, rep[t]) in e;
    assert Chain(e, rep[s], s, t) && Chain(e, rep[s], t, rep[t]);
  }

  lemma RedirectForced(e: Relation, s: Node, t: Node, left: Node, right: Node)
    requires (left, right) in e && (right, left) in e && (s, t) in e
    requires (forall p :: p in e ==> (p.1, p.0) in e) && forall a: Node, b: Node, c: Node :: Chain(e, a, b, c) ==>
      (a, c) in e
    ensures (Redirect(s, left, right), t) in e
    ensures t == right ==> (left, Redirect(s, left, right)) in e
  {
    assert s == right ==> Chain(e, left, right, t);
    assert t == right ==> Chain(e, s, right, left);
    assert t == right && s == right ==> Chain(e, left, right, left);
    assert t == right && s != right ==> (left, s) in e;
  }

  /** A join takes one node out of the graph or has nothing to do, and leaves at most one pair. */
  ghost function Left(g: Shape, todo: seq<(Node, Node)>): nat {
    2 * |g.live| + |todo|
  }

  /** After the pending join: still a quotient but for what is pending, and closer to the end. */
  lemma JoinOutcome(g: Shape, x: Node, y: Node, rep: map<Node, Node>, was: Shape, now: Shape, pair: (Node, Node),
                    todo: seq<(Node, Node)>)
    requires WellFormed(g) && WellFormed(was) && x in g.live && y in g.live && Partial(g, x, y, rep, was, [pair])
    requires now == Joined(was, pair.0, pair.1) && todo == [] + JoinedTodo(was.out, pair.0, pair.1)
    ensures Partial(g, x, y, Redirected(rep, pair.0, pair.1), now, todo)
    ensures Left(now, todo) < Left(was, [pair])
  {
    assert todo == JoinedTodo(was.out, pair.0, pair.1) && [pair] == [(pair.0, pair.1)];
    JoinPartial(g, x, y, rep, was, pair.0, pair.1);
    JoinLeavesLess(was, pair.0, pair.1);
  }

  lemma JoinLeavesLess(g: Shape, left: Node, right: Node)
    requires right in g.live
    ensures Left(Joined(g, left, right), JoinedTodo(g.out, left, right)) < Left(g, [(left, right)])
  {}

  /** Performs the pending join. */
  method JoinPending(ctx: BuildCtx, ghost g: Shape, ghost x: Node, ghost y: Node, ghost rep: map<Node, Node>)
    returns (ghost rep': map<Node, Node>)
    requires ctx.ptg.Valid() && ctx.joinTodo != []
    requires WellFormed(g) && x in g.live && y in g.live && Partial(g, x, y, rep, ctx.ptg.View(), ctx.joinTodo)
    modifies ctx`joinTodo, ctx.ptg
    ensures ctx.ptg.Valid() && Partial(g, x, y, rep', ctx.ptg.View(), ctx.joinTodo)
    ensures Left(ctx.ptg.View(), ctx.joinTodo) < old(Left(ctx.ptg.View(), ctx.joinTodo))
  {
    var pair := ctx.joinTodo[|ctx.joinTodo| - 1];
    assert ctx.joinTodo == [pair];
    ctx.joinTodo := ctx.joinTodo[..|ctx.joinTodo| - 1];
    ghost var was := ctx.ptg.View();
    assert WellFormed(was);
    rep' := Redirected(rep, pair.0, pair.1);
    ctx.JoinNodesS(pair.0, pair.1);
    JoinOutcome(g, x, y, rep, was, ctx.ptg.View(), pair, ctx.joinTodo);
  }

  /** Joins nodes until nothing is left to be joined.  Each join leaves at most one pair, so one is pending at most. */
  method JoinFixPointS(ctx: BuildCtx, ghost g: Shape, ghost x: Node, ghost y: Node) returns (ghost rep: map<Node, Node>)
    requires ctx.ptg.Valid() && ctx.joinTodo == [(x, y)]
    requires g == ctx.ptg.View() && WellFormed(g) && x in g.live && y in g.live
    modifies ctx`joinTodo, ctx.ptg
    ensures ctx.ptg.Valid() && ctx.joinTodo == []
    ensures Quotient(g, x, y, rep, ctx.ptg.View())
  {
    rep := Itself(g.live);
    StartPartial(g, x, y);
    while ctx.joinTodo != []
      invariant ctx.ptg.Valid() && Partial(g, x, y, rep, ctx.ptg.View(), ctx.joinTodo)
      decreases Left(ctx.ptg.View(), ctx.joinTodo)
    {
      rep := JoinPending(ctx, g, x, y, rep);
    }
    PartialDone(g, x, y, rep, ctx.ptg.View());
  }
}
