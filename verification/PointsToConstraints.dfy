/** What a pointer assignment asks of a points-to graph, and the graphs that meet it: growing and merging break no such
    constraint, and each thing added while one is handled is in every graph that meets it. */
module PointsToConstraints {
  import opened Collections
  import opened PointsToGraph
  import opened PointsToUnify

  /** Part selects a field, an offset or an array element; the graph does not tell parts apart. */
  datatype Accessor = Deref | Part | Ref

  // ---------- graphs that grow and merge ----------

  /** `h` takes `g` into `g'`: edges to edges, items to their new homes. */
  ghost predicate Morphism(g: Shape, h: map<Node, Node>, g': Shape) {
    && WellFormed(g) && WellFormed(g') && h.Keys == g.live
    && (forall n :: n in g.live ==> h[n] in g'.live)
    && (forall n :: n in g.out ==> h[n] in g'.out && g'.out[h[n]] == h[g.out[n]])
    && (forall u :: u in g.home ==> u in g'.home && g'.home[u] == h[g.home[u]])
  }

  function Compose(f: map<Node, Node>, h: map<Node, Node>): map<Node, Node>
    requires forall n :: n in f ==> f[n] in h
  {
    map n | n in f :: h[f[n]]
  }

  lemma MorphismsCompose(g: Shape, f: map<Node, Node>, g': Shape, h: map<Node, Node>, g'': Shape)
    requires Morphism(g, f, g') && Morphism(g', h, g'')
    ensures Morphism(g, Compose(f, h), g'')
  {}

  lemma QuotientIsMorphism(g: Shape, x: Node, y: Node, rep: map<Node, Node>, g': Shape)
    requires WellFormed(g) && WellFormed(g') && Quotient(g, x, y, rep, g')
    ensures Morphism(g, rep, g')
  {}

  /** `g'` has all of `g`, and maybe more. */
  ghost predicate Extends(g: Shape, g': Shape) {
    Morphism(g, Itself(g.live), g')
  }

  lemma ExtendsItself(ptg: Graph)
    requires ptg.Valid()
    ensures WellFormed(ptg.View()) && Extends(ptg.View(), ptg.View())
  {}

  lemma ExtendsTransitive(g: Shape, g': Shape, g'': Shape)
    requires Extends(g, g') && Extends(g', g'')
    ensures Extends(g, g'')
  {}

  function WithItem(g: Shape, n: Node, u: Uid): Shape {
    Shape(g.live + {n}, g.out, g.home[u := n])
  }

  function WithTarget(g: Shape, n: Node, m: Node): Shape {
    Shape(g.live + {m}, g.out[n := m], g.home)
  }

  function WithEdge(g: Shape, n: Node, m: Node): Shape {
    Shape(g.live, g.out[n := m], g.home)
  }

  lemma ExtendByItem(g: Shape, n: Node, u: Uid)
    requires WellFormed(g) && u !in g.home
    ensures Extends(g, WithItem(g, n, u))
  {}

  lemma ExtendByTarget(g: Shape, n: Node, m: Node)
    requires WellFormed(g) && n in g.live && m !in g.live && n !in g.out
    ensures Extends(g, WithTarget(g, n, m))
  {}

  lemma ExtendByEdge(g: Shape, n: Node, m: Node)
    requires WellFormed(g) && n in g.live && m in g.live && n !in g.out
    ensures Extends(g, WithEdge(g, n, m))
  {}

  // ---------- where an operand leads ----------

  /** The node that an access path leads to from `n`, if all edges on the way exist; nothing after
      a reference counts. */
  function Access(out: Edges, n: Node, accessors: seq<Accessor>): Option<Node>
    decreases |accessors|
  {
    if accessors == [] || accessors[0].Ref? then Some(n)
    else if accessors[0].Part? then Access(out, n, accessors[1..])
    else if n in out then Access(out, out[n], accessors[1..])
    else None
  }

  predicate Referenced(accessors: seq<Accessor>) {
    Ref in accessors
  }

  /** The access path of an item leads to `n`. */
  ghost predicate Accessed(g: Shape, u: Uid, accessors: seq<Accessor>, n: Node) {
    u in g.home && n in g.live && Access(g.out, g.home[u], accessors) == Some(n)
  }

  /** The access path of an item leads somewhere. */
  ghost predicate Accessible(g: Shape, u: Uid, accessors: seq<Accessor>) {
    u in g.home && Access(g.out, g.home[u], accessors).Some?
  }

  lemma {:induction false} MorphismAccess(g: Shape, h: map<Node, Node>, g': Shape, n: Node, accessors: seq<Accessor>)
    requires Morphism(g, h, g') && n in g.live && Access(g.out, n, accessors).Some?
    ensures Access(g.out, n, accessors).value in g.live
    ensures Access(g'.out, h[n], accessors) == Some(h[Access(g.out, n, accessors).value])
    decreases |accessors|
  {
    if accessors != [] && !accessors[0].Ref? {
      MorphismAccess(g, h, g', if accessors[0].Part? then n else g.out[n], accessors[1..]);
    }
  }

  lemma {:induction false} AccessAppend(out: Edges, n: Node, path: seq<Accessor>, a: Accessor)
    requires Ref !in path
    ensures var end := Access(out, n, path);
      Access(out, n, path + [a]) ==
        if end.None? || !a.Deref? then end else if end.value in out then Some(out[end.value]) else None
    decreases |path|
  {
    if path == [] {
      assert path + [a] == [a];
    } else {
      assert (path + [a])[1..] == path[1..] + [a];
      if path[0].Part? || n in out {
        AccessAppend(out, if path[0].Part? then n else out[n], path[1..], a);
      }
    }
  }

  lemma {:induction false} AccessStops(out: Edges, n: Node, path: seq<Accessor>, rest: seq<Accessor>)
    ensures Access(out, n, path + [Ref] + rest) == Access(out, n, path)
    decreases |path|
  {
    if path != [] && !path[0].Ref? && (path[0].Part? || n in out) {
      assert (path + [Ref] + rest)[1..] == path[1..] + [Ref] + rest;
      AccessStops(out, if path[0].Part? then n else out[n], path[1..], rest);
    }
  }

  lemma ExtendsAccessed(g: Shape, g': Shape, u: Uid, accessors: seq<Accessor>, n: Node)
    requires Extends(g, g') && Accessed(g, u, accessors, n)
    ensures Accessed(g', u, accessors, n)
  {
    MorphismAccess(g, Itself(g.live), g', g.home[u], accessors);
  }

  // ---------- the constraint of an assignment ----------

  /** What is wanted of the nodes that the two sides of an assignment lead to. */
  predicate Agree(out: Edges, l: Node, r: Node, referenced: bool) {
    && l in out
    && if referenced then out[l] == r else r in out && out[l] == out[r]
  }

  /** What is left to be joined for that. */
  ghost predicate Disagree(out: Edges, l: Node, r: Node, referenced: bool, pair: (Node, Node)) {
    && l in out
    && if referenced then pair == (out[l], r) else r in out && pair == (out[l], out[r])
  }

  /** What handling the assignment has made true of the graph. */
  ghost predicate Satisfied(g: Shape, to: Uid, left: seq<Accessor>, from: Uid, right: seq<Accessor>) {
    && Accessible(g, to, left) && Accessible(g, from, right)
    && Agree(g.out, Access(g.out, g.home[to], left).value, Access(g.out, g.home[from], right).value, Referenced(right))
  }

  /** Growing and merging break no constraint. */
  lemma MorphismSatisfied(g: Shape, h: map<Node, Node>, g': Shape, to: Uid, left: seq<Accessor>, from: Uid,
                          right: seq<Accessor>)
    requires Morphism(g, h, g') && Satisfied(g, to, left, from, right)
    ensures Satisfied(g', to, left, from, right)
  {
    MorphismAccess(g, h, g', g.home[to], left);
    MorphismAccess(g, h, g', g.home[from], right);
  }

  /** From the nodes of both sides to the constraint of the assignment. */
  lemma AgreeSatisfied(g: Shape, h: map<Node, Node>, g': Shape, to: Uid, left: seq<Accessor>, l: Node,
                       from: Uid, right: seq<Accessor>, r: Node)
    requires Morphism(g, h, g') && Accessed(g, to, left, l) && Accessed(g, from, right, r)
    requires Agree(g'.out, h[l], h[r], Referenced(right))
    ensures Satisfied(g', to, left, from, right)
  {
    MorphismAccess(g, h, g', g.home[to], left);
    MorphismAccess(g, h, g', g.home[from], right);
  }

  // ---------- nothing that was not needed ----------

  /** `goal` tells apart no more than `g` does and has all that `g` has. */
  ghost predicate Fits(g: Shape, goal: Shape) {
    exists k :: Morphism(g, k, goal)
  }

  /** Between `g` and `now` nothing has been added but what an access path needs. */
  ghost predicate AddedForPath(g: Shape, now: Shape, u: Uid, accessors: seq<Accessor>) {
    forall goal :: Fits(g, goal) && Accessible(goal, u, accessors) ==> Fits(now, goal)
  }

  /** Between `g` and `now` nothing has been added or merged but what the assignment needs. */
  ghost predicate DoneFor(g: Shape, now: Shape, to: Uid, left: seq<Accessor>, from: Uid, right: seq<Accessor>) {
    forall goal :: Fits(g, goal) && Satisfied(goal, to, left, from, right) ==> Fits(now, goal)
  }

  /** `k` takes `g` into a graph in which the images of the two nodes agree. */
  ghost predicate Placed(g: Shape, k: map<Node, Node>, goal: Shape, l: Node, r: Node, referenced: bool) {
    Morphism(g, k, goal) && l in g.live && r in g.live && Agree(goal.out, k[l], k[r], referenced)
  }

  /** Where there is place for `g` with the two nodes agreeing, there is for `now`. */
  ghost predicate Prepared(g: Shape, now: Shape, l: Node, r: Node, referenced: bool) {
    forall goal, k :: Placed(g, k, goal, l, r, referenced) ==> exists k' :: Placed(now, k', goal, l, r, referenced)
  }

  ghost predicate Connected(g: Shape, now: Shape, l: Node, r: Node, referenced: bool) {
    forall goal, k :: Placed(g, k, goal, l, r, referenced) ==> Fits(now, goal)
  }

  lemma ItemNeeded(g: Shape, n: Node, u: Uid)
    requires WellFormed(g) && u !in g.home && n !in g.live
    ensures AddedForPath(g, WithItem(g, n, u), u, [])
  {
    forall goal | Fits(g, goal) && u in goal.home
      ensures Fits(WithItem(g, n, u), goal)
    {
      var k :| Morphism(g, k, goal);
      assert Morphism(WithItem(g, n, u), k[n := goal.home[u]], goal);
    }
  }

  lemma TargetPlaced(g: Shape, k: map<Node, Node>, goal: Shape, n: Node, m: Node)
    requires Morphism(g, k, goal) && n in g.live && n !in g.out && m !in g.live && k[n] in goal.out
    ensures Morphism(WithTarget(g, n, m), k[m := goal.out[k[n]]], goal)
  {}

  /** A missing successor on an access path is needed. */
  lemma StepNeeded(g: Shape, before: Shape, now: Shape, u: Uid, path: seq<Accessor>, n: Node, m: Node)
    requires AddedForPath(g, before, u, path) && Accessed(before, u, path, n) && Ref !in path
    requires now == before || (n !in before.out && m !in before.live && now == WithTarget(before, n, m))
    ensures AddedForPath(g, now, u, path + [Deref])
  {
    forall goal | Fits(g, goal) && Accessible(goal, u, path + [Deref])
      ensures Fits(now, goal)
    {
      AccessAppend(goal.out, goal.home[u], path, Deref);
      var k :| Morphism(before, k, goal);
      MorphismAccess(before, k, goal, before.home[u], path);
      if now != before {
        TargetPlaced(before, k, goal, n, m);
      }
    }
  }

  lemma PartNeeded(g: Shape, now: Shape, u: Uid, path: seq<Accessor>)
    requires AddedForPath(g, now, u, path) && Ref !in path
    ensures AddedForPath(g, now, u, path + [Part])
  {
    forall goal | Fits(g, goal) && Accessible(goal, u, path + [Part])
      ensures Fits(now, goal)
    {
      AccessAppend(goal.out, goal.home[u], path, Part);
    }
  }

  lemma EndNeeded(g: Shape, now: Shape, u: Uid, path: seq<Accessor>, rest: seq<Accessor>)
    requires AddedForPath(g, now, u, path)
    ensures AddedForPath(g, now, u, path + [Ref] + rest)
  {
    forall goal | Fits(g, goal) && Accessible(goal, u, path + [Ref] + rest)
      ensures Fits(now, goal)
    {
      AccessStops(goal.out, goal.home[u], path, rest);
    }
  }

  /** An edge between two nodes is needed where the one is to be the successor of the other. */
  lemma EdgePrepared(g: Shape, l: Node, r: Node)
    requires l !in g.out
    ensures Prepared(g, WithEdge(g, l, r), l, r, true)
  {
    forall goal, k | Placed(g, k, goal, l, r, true)
      ensures Placed(WithEdge(g, l, r), k, goal, l, r, true)
    {}
  }

  /** A successor is needed where the two nodes are to have the same one. */
  lemma TargetPrepared(g: Shape, n: Node, m: Node, l: Node, r: Node)
    requires n !in g.out && m !in g.live && (n == l || n == r)
    ensures Prepared(g, WithTarget(g, n, m), l, r, false)
  {
    forall goal, k | Placed(g, k, goal, l, r, false)
      ensures exists k' :: Placed(WithTarget(g, n, m), k', goal, l, r, false)
    {
      TargetPlaced(g, k, goal, n, m);
      assert Placed(WithTarget(g, n, m), k[m := goal.out[k[n]]], goal, l, r, false);
    }
  }

  lemma PreparedAtFirst(g: Shape, l: Node, r: Node, referenced: bool)
    ensures Prepared(g, g, l, r, referenced)
  {}

  lemma PreparedTwice(g: Shape, before: Shape, now: Shape, l: Node, r: Node, referenced: bool)
    requires Prepared(g, before, l, r, referenced) && Prepared(before, now, l, r, referenced)
    ensures Prepared(g, now, l, r, referenced)
  {}

  /** A quotient goes wherever the two nodes that it joins go to one node. */
  lemma QuotientPlaced(g: Shape, x: Node, y: Node, rep: map<Node, Node>, g': Shape, k: map<Node, Node>, goal: Shape)
    requires WellFormed(g) && WellFormed(g') && Quotient(g, x, y, rep, g')
    requires Morphism(g, k, goal) && x in g.live && y in g.live && k[x] == k[y]
    ensures Fits(g', goal)
  {
    hide WellFormed, Morphism, Fits, Kernel;
    RepresentedAlike(g, x, y, rep, g', k, goal);
    QuotientMorphism(g, x, y, rep, g', k, goal);
  }

  /** Each node goes where the node goes that it was joined into. */
  lemma RepresentedAlike(g: Shape, x: Node, y: Node, rep: map<Node, Node>, g': Shape, k: map<Node, Node>, goal: Shape)
    requires WellFormed(g) && Quotient(g, x, y, rep, g')
    requires Morphism(g, k, goal) && x in g.live && y in g.live && k[x] == k[y]
    ensures forall n :: n in g.live ==> k[rep[n]] == k[n]
  {
    hide WellFormed, Morphism, Congruence;
    MorphismTotal(g, k, goal);
    KernelOfMorphism(g, k, goal);
    forall n | n in g.live
      ensures k[rep[n]] == k[n]
    {
      assert (n, rep[n]) in Kernel(g, rep);
    }
  }

  lemma MorphismTotal(g: Shape, k: map<Node, Node>, goal: Shape)
    requires Morphism(g, k, goal)
    ensures g.live <= k.Keys
  {}

  lemma QuotientMorphism(g: Shape, x: Node, y: Node, rep: map<Node, Node>, g': Shape, k: map<Node, Node>, goal: Shape)
    requires WellFormed(g) && WellFormed(g') && Quotient(g, x, y, rep, g') && Morphism(g, k, goal)
    requires forall n :: n in g.live ==> k[rep[n]] == k[n]
    ensures Fits(g', goal)
  {
    var k' := map m | m in g'.live :: k[m];
    assert Morphism(g', k', goal);
  }

  /** What a morphism identifies is a congruence. */
  lemma KernelOfMorphism(g: Shape, k: map<Node, Node>, goal: Shape)
    requires Morphism(g, k, goal)
    ensures Congruence(g, Kernel(g, k))
  {}

  /** The join that is left is needed. */
  lemma JoinNeeded(g: Shape, before: Shape, x: Node, y: Node, rep: map<Node, Node>, now: Shape, l: Node, r: Node,
                   referenced: bool)
    requires Prepared(g, before, l, r, referenced) && Disagree(before.out, l, r, referenced, (x, y))
    requires WellFormed(before) && WellFormed(now) && Quotient(before, x, y, rep, now)
    ensures Connected(g, now, l, r, referenced)
  {
    forall goal, k | Placed(g, k, goal, l, r, referenced)
      ensures Fits(now, goal)
    {
      var k' :| Placed(before, k', goal, l, r, referenced);
      QuotientPlaced(before, x, y, rep, now, k', goal);
    }
  }

  /** Both paths and the connection together are what the assignment needs. */
  lemma AssignmentNeeded(g: Shape, g1: Shape, g2: Shape, now: Shape, to: Uid, left: seq<Accessor>, l: Node,
                         from: Uid, right: seq<Accessor>, r: Node)
    requires AddedForPath(g, g1, to, left) && AddedForPath(g1, g2, from, right)
    requires Accessed(g2, to, left, l) && Accessed(g2, from, right, r)
    requires Connected(g2, now, l, r, Referenced(right))
    ensures DoneFor(g, now, to, left, from, right)
  {
    forall goal | Fits(g, goal) && Satisfied(goal, to, left, from, right)
      ensures Fits(now, goal)
    {
      var k :| Morphism(g2, k, goal);
      MorphismAccess(g2, k, goal, g2.home[to], left);
      MorphismAccess(g2, k, goal, g2.home[from], right);
      assert Placed(g2, k, goal, l, r, Referenced(right));
    }
  }
}
