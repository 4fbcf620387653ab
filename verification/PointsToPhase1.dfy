/** The intra-procedural phase of the points-to analysis, its soundness and its precision: whatever a run of the handled
    instructions stores in a variable, in any order and any number of times, lives in the node that the variable's node
    points to; and the graph is the least one that meets the constraints of all instructions. */
module PointsToPhase1 {
  import opened PointsToConstraints
  import opened PointsToGraph
  import opened PointsToUnify

  datatype Operand = VarOperand(uid: Uid, accessors: seq<Accessor>, ptrRelated: bool) | CstOperand | VoidOperand

  datatype Insn =
    | Assign(left: Operand, right: Operand)
    | Ret(operands: seq<Operand>)
    | Neutral
    | Call
    | Clobber
    | Unhandled

  datatype RetVal = NoChange | Change | Fail

  // ---------- runs ----------

  /** A part of a variable. */
  type Loc = (Uid, seq<int>)

  /** The addresses that a run has stored, by the part that holds them. */
  type Memory = map<Loc, Loc>

  ghost predicate Points(mem: Memory, x: Uid, y: Uid) {
    exists l :: l in mem && l.0 == x && mem[l].0 == y
  }

  /** Some value of the memory's parts leads the access path from `x` to `y`. */
  ghost predicate Leads(mem: Memory, x: Uid, accessors: seq<Accessor>, y: Uid)
    decreases |accessors|
  {
    if accessors == [] || accessors[0].Ref? then x == y
    else if accessors[0].Part? then Leads(mem, x, accessors[1..], y)
    else exists z :: Points(mem, x, z) && Leads(mem, z, accessors[1..], y)
  }

  /** One execution of an assignment: parts of the variable that the left side leads to may change, and then hold
      nothing, or the address of what the right side leads to, or an address that some part of that held. */
  ghost predicate Executes(mem: Memory, to: Uid, left: seq<Accessor>, from: Uid, right: seq<Accessor>, mem': Memory) {
    exists x, y :: Leads(mem, to, left, x) && Leads(mem, from, right, y) &&
      forall l :: l in mem' ==>
        || (l in mem && mem'[l] == mem[l])
        || (l.0 == x && if Ref in right then mem'[l].0 == y else Points(mem, y, mem'[l].0))
  }

  /** The node of `x` points to the node of `y`. */
  ghost predicate Targets(g: Shape, x: Uid, y: Uid) {
    x in g.home && y in g.home && g.home[x] in g.out && g.out[g.home[x]] == g.home[y]
  }

  /** Everything stored lives where the graph says. */
  ghost predicate Abstracts(g: Shape, mem: Memory) {
    forall x, y :: Points(mem, x, y) ==> Targets(g, x, y)
  }

  lemma {:induction false} AbstractsAccess(g: Shape, mem: Memory, x: Uid, accessors: seq<Accessor>, y: Uid)
    requires Abstracts(g, mem) && Leads(mem, x, accessors, y) && x in g.home
    requires Access(g.out, g.home[x], accessors).Some?
    ensures y in g.home && g.home[y] == Access(g.out, g.home[x], accessors).value
    decreases |accessors|
  {
    if accessors != [] && !accessors[0].Ref? {
      if accessors[0].Part? {
        AbstractsAccess(g, mem, x, accessors[1..], y);
      } else {
        var z :| Points(mem, x, z) && Leads(mem, z, accessors[1..], y);
        AbstractsAccess(g, mem, z, accessors[1..], y);
      }
    }
  }

  /** Executing an assignment whose constraint holds keeps the graph an abstraction of the memory. */
  lemma ExecutionAbstracted(g: Shape, mem: Memory, to: Uid, left: seq<Accessor>, from: Uid, right: seq<Accessor>,
                            mem': Memory)
    requires Abstracts(g, mem) && Satisfied(g, to, left, from, right) && Executes(mem, to, left, from, right, mem')
    ensures Abstracts(g, mem')
  {
    var x, y :| Leads(mem, to, left, x) && Leads(mem, from, right, y) &&
      forall l :: l in mem' ==>
        || (l in mem && mem'[l] == mem[l])
        || (l.0 == x && if Ref in right then mem'[l].0 == y else Points(mem, y, mem'[l].0));
    AbstractsAccess(g, mem, to, left, x);
    AbstractsAccess(g, mem, from, right, y);
    forall p, q | Points(mem', p, q)
      ensures p in g.home && q in g.home && g.home[p] in g.out && g.out[g.home[p]] == g.home[q]
    {
      var l :| l in mem' && l.0 == p && mem'[l].0 == q;
      if l in mem && mem'[l] == mem[l] {
        assert Points(mem, p, q);
      }
    }
  }

  // ---------- the item of the return value ----------

  /** Item `u` has a node of its own, to which nothing points. */
  ghost predicate Private(g: Shape, u: Uid) {
    u in g.home ==>
      && (forall v :: v in g.home && v != u ==> g.home[v] != g.home[u])
      && (forall n :: n in g.out ==> g.out[n] != g.home[u])
  }

  lemma TargetKeepsPrivate(g: Shape, n: Node, m: Node, ret: Uid)
    requires WellFormed(g) && m !in g.live
    ensures Private(g, ret) ==> Private(WithTarget(g, n, m), ret)
  {}

  lemma ItemKeepsPrivate(g: Shape, n: Node, u: Uid, ret: Uid)
    requires WellFormed(g) && n !in g.live && u !in g.home
    ensures Private(g, ret) ==> Private(WithItem(g, n, u), ret)
  {}

  lemma {:induction false} AccessAvoids(g: Shape, ret: Uid, n: Node, accessors: seq<Accessor>)
    requires Private(g, ret) && ret in g.home && n != g.home[ret] && Access(g.out, n, accessors).Some?
    ensures Access(g.out, n, accessors).value != g.home[ret]
    decreases |accessors|
  {
    if accessors != [] && !accessors[0].Ref? {
      AccessAvoids(g, ret, if accessors[0].Part? then n else g.out[n], accessors[1..]);
    }
  }

  /** All nodes but `r` taken together. */
  ghost function AllBut(live: set<Node>, r: Node): set<(Node, Node)> {
    (set a, b | a in live && b in live && a != r && b != r :: (a, b)) + set n | n in live :: (n, n)
  }

  lemma AllButCongruence(g: Shape, r: Node)
    requires WellFormed(g) && forall n :: n in g.out ==> g.out[n] != r
    ensures Congruence(g, AllBut(g.live, r))
  {}

  lemma KernelAvoids(g: Shape, x: Node, y: Node, rep: map<Node, Node>, g': Shape, r: Node, n: Node)
    requires WellFormed(g) && Quotient(g, x, y, rep, g') && x in g.live && y in g.live && x != r && y != r
    requires r in g.live && n in g.live && n != r && forall m :: m in g.out ==> g.out[m] != r
    ensures rep[n] != rep[r]
  {
    var e := AllBut(g.live, r);
    AllButCongruence(g, r);
    assert (x, y) in e && Kernel(g, rep) <= e;
    assert (n, r) in Kernel(g, rep) <==> rep[n] == rep[r];
    assert (n, r) !in e;
  }

  /** Joining other nodes leaves a private node alone, because taking all others together is a congruence. */
  lemma QuotientKeepsPrivate(g: Shape, x: Node, y: Node, rep: map<Node, Node>, g': Shape, ret: Uid)
    requires WellFormed(g) && Quotient(g, x, y, rep, g') && Private(g, ret) && x in g.live && y in g.live
    requires ret in g.home ==> x != g.home[ret] && y != g.home[ret]
    ensures Private(g', ret)
  {
    if ret in g.home {
      var r := g.home[ret];
      forall v | v in g'.home && v != ret
        ensures g'.home[v] != g'.home[ret]
      {
        KernelAvoids(g, x, y, rep, g', r, g.home[v]);
      }
      forall m | m in g'.out
        ensures g'.out[m] != g'.home[ret]
      {
        var n :| n in g.out && rep[n] == m && g'.out[m] == rep[g.out[n]];
        KernelAvoids(g, x, y, rep, g', r, g.out[n]);
      }
    }
  }

  // ---------- handling instructions ----------

  method AppendEmptyS(ptg: Graph, source: Node) returns (target: Node)
    requires ptg.Valid() && source in ptg.View().live && source !in ptg.out
    modifies ptg
    ensures ptg.Valid() && Extends(old(ptg.View()), ptg.View())
    ensures target !in old(ptg.View()).live && ptg.View() == WithTarget(old(ptg.View()), source, target)
  {
    hide Morphism, Tells, HousedIn;
    ghost var g := ptg.View();
    ExtendsItself(ptg);
    target := ptg.NewNode();
    ptg.AddLiveEdge(source, target);
    ExtendByTarget(g, source, target);
  }

  method PreventEndingS(ptg: Graph, n: Node, ghost ret: Uid) returns (target: Node)
    requires ptg.Valid() && n in ptg.View().live
    modifies ptg
    ensures ptg.Valid() && Extends(old(ptg.View()), ptg.View())
    ensures n in ptg.out && target == ptg.out[n]
    ensures ptg.View() == if n in old(ptg.out) then old(ptg.View()) else WithTarget(old(ptg.View()), n, target)
    ensures n !in old(ptg.out) ==> target !in old(ptg.View()).live
    ensures Private(old(ptg.View()), ret) ==> Private(ptg.View(), ret)
  {
    hide Morphism, Tells, HousedIn, Private;
    ghost var g := ptg.View();
    ExtendsItself(ptg);
    var found;
    found, target := ptg.GetOutputS(n);
    if !found {
      target := AppendEmptyS(ptg, n);
      TargetKeepsPrivate(g, n, target, ret);
    }
  }

  method GetNode(ptg: Graph, u: Uid, ghost ret: Uid) returns (n: Node)
    requires ptg.Valid()
    modifies ptg
    ensures ptg.Valid() && Extends(old(ptg.View()), ptg.View())
    ensures u in ptg.home && ptg.home[u] == n
    ensures u !in old(ptg.home) ==> n !in old(ptg.View()).live
    ensures ptg.View() == if u in old(ptg.home) then old(ptg.View()) else WithItem(old(ptg.View()), n, u)
    ensures Private(old(ptg.View()), ret) ==> Private(ptg.View(), ret)
  {
    hide Morphism, Tells, HousedIn, Private;
    ghost var g := ptg.View();
    ExtendsItself(ptg);
    if u in ptg.home {
      n := ptg.home[u];
    } else {
      n := ptg.AllocNodeForItem(u);
      ExtendByItem(g, n, u);
      ItemKeepsPrivate(g, n, u, ret);
    }
  }

  /** The access path has been followed along `path`, up to `n`. */
  ghost predicate Walked(g: Shape, now: Shape, u: Uid, path: seq<Accessor>, n: Node, ret: Uid) {
    && Extends(g, now) && Ref !in path && Accessed(now, u, path, n)
    && now.home.Keys == g.home.Keys + {u} && AddedForPath(g, now, u, path)
    && (Private(g, ret) ==> Private(now, ret))
  }

  lemma SplitAt(s: seq<Accessor>, i: nat)
    requires i < |s|
    ensures s[..i + 1] == s[..i] + [s[i]] && s == s[..i] + [s[i]] + s[i + 1..]
  {}

  lemma WalkStart(g: Shape, now: Shape, u: Uid, n: Node, ret: Uid)
    requires Extends(g, now) && u in now.home && now.home[u] == n && (Private(g, ret) ==> Private(now, ret))
    requires now == g || (u !in g.home && n !in g.live && now == WithItem(g, n, u))
    ensures Walked(g, now, u, [], n, ret)
  {
    if now != g {
      ItemNeeded(g, n, u);
    }
  }

  lemma WalkEnd(g: Shape, now: Shape, u: Uid, path: seq<Accessor>, rest: seq<Accessor>, n: Node, ret: Uid)
    requires Walked(g, now, u, path, n, ret)
    ensures Accessed(now, u, path + [Ref] + rest, n) && Referenced(path + [Ref] + rest)
    ensures AddedForPath(g, now, u, path + [Ref] + rest)
  {
    AccessStops(now.out, now.home[u], path, rest);
    EndNeeded(g, now, u, path, rest);
  }

  lemma WalkPart(g: Shape, now: Shape, u: Uid, path: seq<Accessor>, n: Node, ret: Uid)
    requires Walked(g, now, u, path, n, ret)
    ensures Walked(g, now, u, path + [Part], n, ret)
  {
    AccessAppend(now.out, now.home[u], path, Part);
    PartNeeded(g, now, u, path);
  }

  /** Goes to the successor of the node that `path` leads to, making one if there is none. */
  method StepDown(ptg: Graph, u: Uid, ghost path: seq<Accessor>, n: Node, ghost g: Shape,
                  ghost ret: Uid) returns (target: Node)
    requires ptg.Valid() && Walked(g, ptg.View(), u, path, n, ret)
    modifies ptg
    ensures ptg.Valid() && Walked(g, ptg.View(), u, path + [Deref], target, ret)
  {
    ghost var before := ptg.View();
    target := PreventEndingS(ptg, n, ret);
    ExtendsTransitive(g, before, ptg.View());
    ExtendsAccessed(before, ptg.View(), u, path, n);
    AccessAppend(ptg.out, ptg.home[u], path, Deref);
    StepNeeded(g, before, ptg.View(), u, path, n, target);
  }

  /** Follows the access path of an operand, making the nodes that are missing. */
  method NodeAccessS(ptg: Graph, u: Uid, accessors: seq<Accessor>, ghost ret: Uid)
    returns (root: Node, referenced: bool)
    requires ptg.Valid()
    modifies ptg
    ensures ptg.Valid() && Extends(old(ptg.View()), ptg.View())
    ensures Accessed(ptg.View(), u, accessors, root)
    ensures ptg.home.Keys == old(ptg.home.Keys) + {u}
    ensures AddedForPath(old(ptg.View()), ptg.View(), u, accessors)
    ensures referenced <==> Referenced(accessors)
    ensures Private(old(ptg.View()), ret) ==> Private(ptg.View(), ret)
  {
    ghost var g := ptg.View();
    root := GetNode(ptg, u, ret);
    WalkStart(g, ptg.View(), u, root, ret);
    assert accessors[..0] == [];
    for i := 0 to |accessors|
      invariant ptg.Valid() && Walked(g, ptg.View(), u, accessors[..i], root, ret)
    {
      SplitAt(accessors, i);
      match accessors[i]
      case Deref =>
        root := StepDown(ptg, u, accessors[..i], root, g, ret);
      case Part =>
        WalkPart(g, ptg.View(), u, accessors[..i], root, ret);
      case Ref =>
        WalkEnd(g, ptg.View(), u, accessors[..i], accessors[i + 1..], root, ret);
        return root, true;
    }
    assert accessors[..|accessors|] == accessors;
    referenced := false;
  }

  /** Makes `what` the successor of `parent`, or leaves it to be joined with the one there. */
  method AppendNodeS(ctx: BuildCtx, parent: Node, what: Node)
    requires ctx.ptg.Valid() && parent in ctx.ptg.View().live && what in ctx.ptg.View().live && ctx.joinTodo == []
    modifies ctx`joinTodo, ctx.ptg
    ensures ctx.ptg.Valid() && Extends(old(ctx.ptg.View()), ctx.ptg.View())
    ensures parent in ctx.ptg.out
    ensures ctx.ptg.View() == if parent in old(ctx.ptg.out) then old(ctx.ptg.View())
      else WithEdge(old(ctx.ptg.View()), parent, what)
    ensures ctx.joinTodo == if parent in old(ctx.ptg.out) then [(old(ctx.ptg.out)[parent], what)] else []
  {
    hide Morphism, Tells, HousedIn;
    ghost var g := ctx.ptg.View();
    ExtendsItself(ctx.ptg);
    var found, target := ctx.ptg.GetOutputS(parent);
    if found {
      ctx.joinTodo := ctx.joinTodo + [(target, what)];
    } else {
      ctx.ptg.AddLiveEdge(parent, what);
      ExtendByEdge(g, parent, what);
    }
  }

  /** Runs the joins that are left, of which there is one at most. */
  method Settle(ctx: BuildCtx, ghost l: Node, ghost r: Node, ghost referenced: bool) returns (ghost h: map<Node, Node>)
    requires ctx.ptg.Valid() && |ctx.joinTodo| <= 1 && l in ctx.ptg.View().live && r in ctx.ptg.View().live
    requires ctx.joinTodo == [] ==> Agree(ctx.ptg.out, l, r, referenced)
    requires ctx.joinTodo != [] ==> Disagree(ctx.ptg.out, l, r, referenced, ctx.joinTodo[0])
    modifies ctx`joinTodo, ctx.ptg
    ensures ctx.ptg.Valid() && ctx.joinTodo == []
    ensures Morphism(old(ctx.ptg.View()), h, ctx.ptg.View()) && Agree(ctx.ptg.out, h[l], h[r], referenced)
    ensures old(ctx.joinTodo) == [] ==> ctx.ptg.View() == old(ctx.ptg.View()) && h == Itself(old(ctx.ptg.View().live))
    ensures old(ctx.joinTodo) != [] ==>
      WellFormed(old(ctx.ptg.View())) &&
        Quotient(old(ctx.ptg.View()), old(ctx.joinTodo)[0].0, old(ctx.joinTodo)[0].1, h, ctx.ptg.View())
  {
    ghost var g := ctx.ptg.View();
    assert WellFormed(g);
    h := Itself(g.live);
    if ctx.joinTodo != [] {
      ghost var x, y := ctx.joinTodo[0].0, ctx.joinTodo[0].1;
      assert ctx.joinTodo == [(x, y)];
      h := JoinFixPointS(ctx, g, x, y);
      QuotientIsMorphism(g, x, y, h, ctx.ptg.View());
      QuotientAgrees(g, x, y, h, ctx.ptg.View(), l, r, referenced);
    }
  }

  lemma QuotientAgrees(g: Shape, x: Node, y: Node, rep: map<Node, Node>, g': Shape, l: Node, r: Node, referenced: bool)
    requires WellFormed(g) && Quotient(g, x, y, rep, g') && l in g.out && r in g.live && x == g.out[l]
    requires if referenced then y == r else r in g.out && y == g.out[r]
    ensures Agree(g'.out, rep[l], rep[r], referenced)
  {
    assert (x, y) in Kernel(g, rep);
  }

  /** Lets `l` and `r` agree but for what is left to be joined. */
  method PrepareS(ctx: BuildCtx, l: Node, r: Node, referenced: bool, ghost ret: Uid)
    requires ctx.ptg.Valid() && ctx.joinTodo == [] && l in ctx.ptg.View().live && r in ctx.ptg.View().live
    requires ret in ctx.ptg.home ==> r != ctx.ptg.home[ret]
    modifies ctx`joinTodo, ctx.ptg
    ensures ctx.ptg.Valid() && Extends(old(ctx.ptg.View()), ctx.ptg.View()) && ctx.ptg.home == old(ctx.ptg.home)
    ensures Private(old(ctx.ptg.View()), ret) ==> Private(ctx.ptg.View(), ret)
    ensures |ctx.joinTodo| <= 1 && Prepared(old(ctx.ptg.View()), ctx.ptg.View(), l, r, referenced)
    ensures ctx.joinTodo == [] ==> Agree(ctx.ptg.out, l, r, referenced)
    ensures ctx.joinTodo != [] ==> Disagree(ctx.ptg.out, l, r, referenced, ctx.joinTodo[0])
  {
    hide Morphism, Tells, HousedIn, Prepared;
    ghost var g := ctx.ptg.View();
    PreparedAtFirst(g, l, r, referenced);
    if referenced {
      AppendNodeS(ctx, l, r);
      if l !in g.out {
        EdgePrepared(g, l, r);
      }
    } else {
      var lt := PreventEndingS(ctx.ptg, l, ret);
      ghost var g1 := ctx.ptg.View();
      var rt := PreventEndingS(ctx.ptg, r, ret);
      ExtendsTransitive(g, g1, ctx.ptg.View());
      TargetsPrepared(g, g1, ctx.ptg.View(), l, lt, r, rt);
      ctx.joinTodo := ctx.joinTodo + [(lt, rt)];
    }
  }

  lemma TargetsPrepared(g: Shape, g1: Shape, g2: Shape, l: Node, lt: Node, r: Node, rt: Node)
    requires g1 == g || (l !in g.out && lt !in g.live && g1 == WithTarget(g, l, lt))
    requires g2 == g1 || (r !in g1.out && rt !in g1.live && g2 == WithTarget(g1, r, rt))
    ensures Prepared(g, g2, l, r, false)
  {
    if g1 != g {
      TargetPrepared(g, l, lt, l, r);
    }
    if g2 != g1 {
      TargetPrepared(g1, r, rt, l, r);
    }
    PreparedTwice(g, g1, g2, l, r, false);
  }

  /** Makes the right side's node, or its successor, the successor of the left side's node. */
  method ConnectS(ctx: BuildCtx, l: Node, r: Node, referenced: bool, ghost ret: Uid) returns (ghost h: map<Node, Node>)
    requires ctx.ptg.Valid() && ctx.joinTodo == [] && l in ctx.ptg.View().live && r in ctx.ptg.View().live
    requires ret in ctx.ptg.home ==> r != ctx.ptg.home[ret]
    modifies ctx`joinTodo, ctx.ptg
    ensures ctx.ptg.Valid() && ctx.joinTodo == []
    ensures Morphism(old(ctx.ptg.View()), h, ctx.ptg.View()) && Agree(ctx.ptg.out, h[l], h[r], referenced)
    ensures Connected(old(ctx.ptg.View()), ctx.ptg.View(), l, r, referenced)
    ensures Private(old(ctx.ptg.View()), ret) ==> Private(ctx.ptg.View(), ret)
  {
    ghost var g := ctx.ptg.View();
    PrepareS(ctx, l, r, referenced, ret);
    ghost var g', todo := ctx.ptg.View(), ctx.joinTodo;
    h := Settle(ctx, l, r, referenced);
    if Private(g, ret) && todo != [] {
      QuotientKeepsPrivate(g', todo[0].0, todo[0].1, h, ctx.ptg.View(), ret);
    }
    SettleConnects(g, g', todo, h, ctx.ptg.View(), l, r, referenced);
    MorphismsCompose(g, Itself(g.live), g', h, ctx.ptg.View());
    h := Compose(Itself(g.live), h);
  }

  lemma SettleConnects(g: Shape, before: Shape, todo: seq<(Node, Node)>, h: map<Node, Node>, now: Shape,
                       l: Node, r: Node, referenced: bool)
    requires Prepared(g, before, l, r, referenced) && WellFormed(before) && WellFormed(now) && |todo| <= 1
    requires todo == [] ==> now == before
    requires todo != [] ==>
      Disagree(before.out, l, r, referenced, todo[0]) && Quotient(before, todo[0].0, todo[0].1, h, now)
    ensures Connected(g, now, l, r, referenced)
  {
    if todo != [] {
      JoinNeeded(g, before, todo[0].0, todo[0].1, h, now, l, r, referenced);
    } else {
      forall goal, k | Placed(g, k, goal, l, r, referenced)
        ensures Fits(now, goal)
      {
        var k' :| Placed(before, k', goal, l, r, referenced);
      }
    }
  }

  /** Handles one assignment: afterwards the nodes of the two sides agree. */
  method HandleAssign(ctx: BuildCtx, to: Uid, left: seq<Accessor>, from: Uid, right: seq<Accessor>, ghost ret: Uid)
    returns (ghost h: map<Node, Node>)
    requires ctx.ptg.Valid() && ctx.joinTodo == [] && Private(ctx.ptg.View(), ret) && to != ret && from != ret
    modifies ctx`joinTodo, ctx.ptg
    ensures ctx.ptg.Valid() && ctx.joinTodo == [] && Private(ctx.ptg.View(), ret)
    ensures Morphism(old(ctx.ptg.View()), h, ctx.ptg.View())
    ensures Satisfied(ctx.ptg.View(), to, left, from, right)
    ensures DoneFor(old(ctx.ptg.View()), ctx.ptg.View(), to, left, from, right)
  {
    ghost var g := ctx.ptg.View();
    var l, refLeft := NodeAccessS(ctx.ptg, to, left, ret);
    ghost var g1 := ctx.ptg.View();
    var r, referenced := NodeAccessS(ctx.ptg, from, right, ret);
    ghost var g2 := ctx.ptg.View();
    ExtendsAccessed(g1, g2, to, left, l);
    ExtendsTransitive(g, g1, g2);
    AccessedAvoids(g2, ret, from, right, r);
    h := ConnectS(ctx, l, r, referenced, ret);
    AgreeSatisfied(g2, h, ctx.ptg.View(), to, left, l, from, right, r);
    AssignmentNeeded(g, g1, g2, ctx.ptg.View(), to, left, l, from, right, r);
    MorphismsCompose(g, Itself(g.live), g2, h, ctx.ptg.View());
    h := Compose(Itself(g.live), h);
  }

  lemma AccessedAvoids(g: Shape, ret: Uid, u: Uid, accessors: seq<Accessor>, n: Node)
    requires Private(g, ret) && u != ret && Accessed(g, u, accessors, n)
    ensures ret in g.home ==> n != g.home[ret]
  {
    if ret in g.home {
      AccessAvoids(g, ret, g.home[u], accessors);
    }
  }

  lemma PrivateApart(g: Shape, ret: Uid, u: Uid, accessors: seq<Accessor>)
    requires Private(g, ret) && u != ret
    ensures !(ret in g.home && Accessed(g, u, accessors, g.home[ret]))
  {
    if u in g.home && ret in g.home && Access(g.out, g.home[u], accessors).Some? {
      AccessAvoids(g, ret, g.home[u], accessors);
    }
  }

  /** Handles a return of a pointer as an assignment to the item of the function; nothing is done
      if both are one node. */
  method HandleRet(ctx: BuildCtx, ret: Uid, from: Uid, right: seq<Accessor>)
    returns (rv: RetVal, ghost h: map<Node, Node>)
    requires ctx.ptg.Valid() && ctx.joinTodo == [] && from != ret
    modifies ctx`joinTodo, ctx.ptg
    ensures ctx.ptg.Valid() && ctx.joinTodo == []
    ensures Private(old(ctx.ptg.View()), ret) ==> Private(ctx.ptg.View(), ret)
    ensures Morphism(old(ctx.ptg.View()), h, ctx.ptg.View())
    ensures rv == Change ==> Satisfied(ctx.ptg.View(), ret, [], from, right)
    ensures rv == Change ==> DoneFor(old(ctx.ptg.View()), ctx.ptg.View(), ret, [], from, right)
    ensures rv != Change ==> ret in ctx.ptg.home && Accessed(ctx.ptg.View(), from, right, ctx.ptg.home[ret])
  {
    ghost var g := ctx.ptg.View();
    var l := GetNode(ctx.ptg, ret, ret);
    ghost var g1 := ctx.ptg.View();
    var r, referenced := NodeAccessS(ctx.ptg, from, right, ret);
    ghost var g2 := ctx.ptg.View();
    ExtendsAccessed(g1, g2, ret, [], l);
    ExtendsTransitive(g, g1, g2);
    h := Itself(g.live);
    if l == r {
      return NoChange, h;
    }
    h := ConnectS(ctx, l, r, referenced, ret);
    AgreeSatisfied(g2, h, ctx.ptg.View(), ret, [], l, from, right, r);
    RetNeeded(g, g1, l, ret);
    AssignmentNeeded(g, g1, g2, ctx.ptg.View(), ret, [], l, from, right, r);
    MorphismsCompose(g, Itself(g.live), g2, h, ctx.ptg.View());
    h := Compose(Itself(g.live), h);
    rv := Change;
  }

  lemma RetNeeded(g: Shape, g1: Shape, n: Node, u: Uid)
    requires WellFormed(g) && (g1 == g || (u !in g.home && n !in g.live && g1 == WithItem(g, n, u)))
    ensures AddedForPath(g, g1, u, [])
  {
    if g1 != g {
      ItemNeeded(g, n, u);
    }
  }

  /** Variables are told apart from the item of the return value, and only variables are returned. */
  predicate Proper(insn: Insn, ret: Uid) {
    match insn
    case Assign(l, r) => (l.VarOperand? ==> l.uid != ret) && (r.VarOperand? ==> r.uid != ret)
    case Ret(ops) => forall k :: 0 <= k < |ops| ==> ops[k].VarOperand? && ops[k].uid != ret
    case _ => true
  }

  /** The constraint of an instruction: both sides of an assignment agree, whatever their access paths, and so do the
      item of the function and a pointer that is returned. */
  ghost predicate Upheld(g: Shape, insn: Insn, ret: Uid) {
    match insn
    case Assign(VarOperand(to, left, true), VarOperand(from, right, true)) => Satisfied(g, to, left, from, right)
    case Ret(ops) => Returns(ops) ==> Satisfied(g, ret, [], ops[0].uid, ops[0].accessors)
    case _ => true
  }

  /** One pointer-related variable is returned. */
  predicate Returns(ops: seq<Operand>) {
    |ops| == 1 && ops[0].VarOperand? && ops[0].ptrRelated
  }

  lemma MorphismUpholds(g: Shape, h: map<Node, Node>, g': Shape, insn: Insn, ret: Uid)
    requires Morphism(g, h, g') && Upheld(g, insn, ret)
    ensures Upheld(g', insn, ret)
  {
    match insn
    case Assign(VarOperand(to, left, true), VarOperand(from, right, true)) =>
      MorphismSatisfied(g, h, g', to, left, from, right);
    case Ret(ops) =>
      if Returns(ops) {
        MorphismSatisfied(g, h, g', ret, [], ops[0].uid, ops[0].accessors);
      }
    case _ =>
  }

  /** Handles one instruction: changes the graph for pointer assignments and returns only, fails
      on what it cannot handle. */
  method Phase1HandleInsn(ctx: BuildCtx, insn: Insn, ret: Uid) returns (rv: RetVal, ghost h: map<Node, Node>)
    requires ctx.ptg.Valid() && ctx.joinTodo == [] && Private(ctx.ptg.View(), ret) && Proper(insn, ret)
    modifies ctx`joinTodo, ctx.ptg
    ensures ctx.ptg.Valid() && ctx.joinTodo == [] && Private(ctx.ptg.View(), ret)
    ensures Morphism(old(ctx.ptg.View()), h, ctx.ptg.View())
    ensures rv != Fail ==> Upheld(ctx.ptg.View(), insn, ret)
    ensures NoMoreThan(old(ctx.ptg.View()), ctx.ptg.View(), [insn], ret)
    ensures rv == Fail <==> Fails(insn)
    ensures rv == Change <==>
      || (insn.Assign? && insn.left.VarOperand? && insn.right.VarOperand? && insn.left.ptrRelated &&
           insn.right.ptrRelated)
      || (insn.Ret? && Returns(insn.operands))
    ensures rv != Change ==> ctx.ptg.View() == old(ctx.ptg.View())
  {
    hide NoMoreThan, DoneFor, Satisfied;
    ghost var g := ctx.ptg.View();
    assert WellFormed(g);
    NoMoreAtFirst(g, [insn], ret);
    h := Itself(g.live);
    match insn
    case Neutral => rv := NoChange;
    case Call => rv := NoChange;
    case Clobber => rv := NoChange;
    case Unhandled => rv := Fail;
    case Ret(ops) =>
      if |ops| != 1 {
        return NoChange, h;
      }
      if !ops[0].ptrRelated {
        return NoChange, h;
      }
      rv, h := HandleRet(ctx, ret, ops[0].uid, ops[0].accessors);
      PrivateApart(ctx.ptg.View(), ret, ops[0].uid, ops[0].accessors);
      RetNoMore(g, ctx.ptg.View(), ops, ret);
    case Assign(left, right) =>
      if !left.VarOperand? || !right.VarOperand? {
        return NoChange, h;
      }
      if !left.ptrRelated || !right.ptrRelated {
        if left.ptrRelated != right.ptrRelated {
          return Fail, h;
        }
        return NoChange, h;
      }
      h := HandleAssign(ctx, left.uid, left.accessors, right.uid, right.accessors, ret);
      AssignNoMore(g, ctx.ptg.View(), left.uid, left.accessors, right.uid, right.accessors, ret);
      rv := Change;
  }

  /** What the phase gives up on: an instruction it does not know, or an assignment of which one side is a pointer. */
  predicate Fails(insn: Insn) {
    match insn
    case Unhandled => true
    case Assign(VarOperand(_, _, p), VarOperand(_, _, q)) => p != q
    case _ => false
  }

  // ---------- the whole phase ----------

  /** Addresses may only get lost. */
  ghost predicate NoneStored(mem: Memory, mem': Memory) {
    forall l :: l in mem' ==> l in mem && mem'[l] == mem[l]
  }

  /** What an instruction executes, told from the instruction alone: every assignment of one pointer-related variable to
      another, whatever their access paths, and every return of one.  Calls have no step here, and neither has what the
      phase does not know. */
  ghost predicate StepOf(insn: Insn, ret: Uid, mem: Memory, mem': Memory) {
    match insn
    case Assign(VarOperand(to, left, true), VarOperand(from, right, true)) => Executes(mem, to, left, from, right, mem')
    case Ret(ops) =>
      if |ops| == 1 && ops[0].VarOperand? && ops[0].ptrRelated then
        Executes(mem, ret, [], ops[0].uid, ops[0].accessors, mem')
      else NoneStored(mem, mem')
    case Call => false
    case Unhandled => false
    case _ => NoneStored(mem, mem')
  }

  /** A run: any instructions, in any order, any number of times. */
  ghost predicate Run(blocks: seq<seq<Insn>>, ret: Uid, mems: seq<Memory>) {
    && mems != []
    && forall i :: 0 < i < |mems| ==> exists insn :: Within(blocks, insn) && StepOf(insn, ret, mems[i - 1], mems[i])
  }

  ghost predicate Within(blocks: seq<seq<Insn>>, insn: Insn) {
    exists bb :: bb in blocks && insn in bb
  }

  lemma {:induction false} RunAbstracted(g: Shape, blocks: seq<seq<Insn>>, ret: Uid, mems: seq<Memory>, i: nat)
    requires Run(blocks, ret, mems) && i < |mems| && Abstracts(g, mems[0])
    requires forall insn :: Within(blocks, insn) ==> Upheld(g, insn, ret)
    ensures Abstracts(g, mems[i])
  {
    if i > 0 {
      RunAbstracted(g, blocks, ret, mems, i - 1);
      var insn :| Within(blocks, insn) && StepOf(insn, ret, mems[i - 1], mems[i]);
      StepAbstracted(g, insn, ret, mems[i - 1], mems[i]);
    }
  }

  lemma StepAbstracted(g: Shape, insn: Insn, ret: Uid, mem: Memory, mem': Memory)
    requires Abstracts(g, mem) && Upheld(g, insn, ret) && StepOf(insn, ret, mem, mem')
    ensures Abstracts(g, mem')
  {
    if NoneStored(mem, mem') {
      forall x, y | Points(mem', x, y)
        ensures Points(mem, x, y)
      {
        var l :| l in mem' && l.0 == x && mem'[l].0 == y;
      }
    } else {
      match insn
      case Assign(VarOperand(to, left, true), VarOperand(from, right, true)) =>
        ExecutionAbstracted(g, mem, to, left, from, right, mem');
      case Ret(ops) => ExecutionAbstracted(g, mem, ret, [], ops[0].uid, ops[0].accessors, mem');
    }
  }

  /** A run from a memory that the graph abstracts, as one without addresses is, whose end has an address of a part of
      `y` in a part of `x`. */
  ghost predicate RunPoints(g: Shape, blocks: seq<seq<Insn>>, ret: Uid, mems: seq<Memory>, x: Uid, y: Uid) {
    Run(blocks, ret, mems) && Abstracts(g, mems[0]) && Points(mems[|mems| - 1], x, y)
  }

  lemma EmptyAbstracted(g: Shape)
    ensures Abstracts(g, map[])
  {}

  /** The node of `x` points to a node that lists `y`. */
  ghost predicate MayPoint(ptg: Graph, x: Uid, y: Uid)
    reads ptg
  {
    && x in ptg.home && ptg.home[x] in ptg.out
    && ptg.out[ptg.home[x]] in ptg.variables && y in ptg.variables[ptg.out[ptg.home[x]]]
  }

  /** A graph that meets the constraints of all instructions. */
  ghost predicate Solves(g: Shape, blocks: seq<seq<Insn>>, ret: Uid) {
    WellFormed(g) && forall insn :: Within(blocks, insn) ==> Upheld(g, insn, ret)
  }

  /** A solution that goes into every other one: it has nothing and identifies nothing that is not so in all of them. */
  ghost predicate LeastSolution(g: Shape, blocks: seq<seq<Insn>>, ret: Uid) {
    Solves(g, blocks, ret) && forall goal :: Solves(goal, blocks, ret) ==> Fits(g, goal)
  }

  ghost predicate AllUpheld(g: Shape, insns: seq<Insn>, ret: Uid) {
    forall insn :: insn in insns ==> Upheld(g, insn, ret)
  }

  /** Between `g` and `now` nothing has been added or merged but what the instructions need. */
  ghost predicate NoMoreThan(g: Shape, now: Shape, insns: seq<Insn>, ret: Uid) {
    forall goal :: Fits(g, goal) && AllUpheld(goal, insns, ret) ==> Fits(now, goal)
  }

  lemma NoMoreAtFirst(g: Shape, insns: seq<Insn>, ret: Uid)
    ensures NoMoreThan(g, g, insns, ret)
  {}

  lemma AssignNoMore(g: Shape, now: Shape, to: Uid, left: seq<Accessor>, from: Uid, right: seq<Accessor>, ret: Uid)
    requires DoneFor(g, now, to, left, from, right)
    ensures NoMoreThan(g, now, [Assign(VarOperand(to, left, true), VarOperand(from, right, true))], ret)
  {
    var insn := Assign(VarOperand(to, left, true), VarOperand(from, right, true));
    forall goal | Fits(g, goal) && AllUpheld(goal, [insn], ret)
      ensures Fits(now, goal)
    {
      assert insn in [insn] && Upheld(goal, insn, ret);
    }
  }

  lemma RetNoMore(g: Shape, now: Shape, ops: seq<Operand>, ret: Uid)
    requires Returns(ops) && DoneFor(g, now, ret, [], ops[0].uid, ops[0].accessors)
    ensures NoMoreThan(g, now, [Ret(ops)], ret)
  {
    forall goal | Fits(g, goal) && AllUpheld(goal, [Ret(ops)], ret)
      ensures Fits(now, goal)
    {
      assert Ret(ops) in [Ret(ops)] && Upheld(goal, Ret(ops), ret);
    }
  }

  lemma NoMoreTransitive(g: Shape, g': Shape, g'': Shape, insns: seq<Insn>, more: seq<Insn>, ret: Uid)
    requires NoMoreThan(g, g', insns, ret) && NoMoreThan(g', g'', more, ret)
    ensures NoMoreThan(g, g'', insns + more, ret)
  {
    forall goal | Fits(g, goal) && AllUpheld(goal, insns + more, ret)
      ensures Fits(g'', goal)
    {
      assert AllUpheld(goal, insns, ret) && AllUpheld(goal, more, ret);
    }
  }

  lemma MorphismUpholdsAll(g: Shape, h: map<Node, Node>, g': Shape, insns: seq<Insn>, ret: Uid)
    requires Morphism(g, h, g') && AllUpheld(g, insns, ret)
    ensures AllUpheld(g', insns, ret)
  {
    forall insn | insn in insns
      ensures Upheld(g', insn, ret)
    {
      MorphismUpholds(g, h, g', insn, ret);
    }
  }

  /** Handling one more instruction of a block. */
  lemma BlockStep(start: Shape, g: Shape, h: map<Node, Node>, now: Shape, done: seq<Insn>, bb: seq<Insn>, i: nat,
                  ret: Uid)
    requires i < |bb| && Morphism(g, h, now) && AllUpheld(g, done + bb[..i], ret) && Upheld(now, bb[i], ret)
    requires NoMoreThan(start, g, bb[..i], ret) && NoMoreThan(g, now, [bb[i]], ret)
    ensures AllUpheld(now, done + bb[..i + 1], ret) && NoMoreThan(start, now, bb[..i + 1], ret)
  {
    assert bb[..i + 1] == bb[..i] + [bb[i]];
    MorphismUpholdsAll(g, h, now, done + bb[..i], ret);
    NoMoreTransitive(start, g, now, bb[..i], [bb[i]], ret);
  }

  /** Handles the instructions of a block in order, up to one that cannot be handled. */
  method Phase1Block(ctx: BuildCtx, bb: seq<Insn>, ret: Uid, ghost done: seq<Insn>) returns (ok: bool)
    requires ctx.ptg.Valid() && ctx.joinTodo == [] && Private(ctx.ptg.View(), ret)
    requires (forall insn :: insn in bb ==> Proper(insn, ret)) && AllUpheld(ctx.ptg.View(), done, ret)
    modifies ctx`joinTodo, ctx.ptg
    ensures ctx.ptg.Valid() && ctx.joinTodo == [] && Private(ctx.ptg.View(), ret)
    ensures ok <==> forall insn :: insn in bb ==> !Fails(insn)
    ensures ok ==> AllUpheld(ctx.ptg.View(), done + bb, ret)
    ensures ok ==> NoMoreThan(old(ctx.ptg.View()), ctx.ptg.View(), bb, ret)
  {
    hide NoMoreThan, AllUpheld, Morphism;
    ghost var start := ctx.ptg.View();
    NoMoreAtFirst(start, [], ret);
    assert done + bb[..0] == done;
    for i := 0 to |bb|
      invariant ctx.ptg.Valid() && ctx.joinTodo == [] && Private(ctx.ptg.View(), ret)
      invariant AllUpheld(ctx.ptg.View(), done + bb[..i], ret) && NoMoreThan(start, ctx.ptg.View(), bb[..i], ret)
      invariant forall k :: 0 <= k < i ==> !Fails(bb[k])
    {
      ghost var g := ctx.ptg.View();
      var rv;
      ghost var h;
      rv, h := Phase1HandleInsn(ctx, bb[i], ret);
      if rv == Fail {
        return false;
      }
      BlockStep(start, g, h, ctx.ptg.View(), done, bb, i, ret);
    }
    assert bb[..|bb|] == bb;
    ok := true;
  }

  /** Handles all instructions of a function once, block by block. */
  method FicsPhase1(ctx: BuildCtx, blocks: seq<seq<Insn>>, ret: Uid) returns (ok: bool)
    requires ctx.ptg.Valid() && ctx.joinTodo == [] && ctx.ptg.View() == Shape({}, map[], map[])
    requires forall insn :: Within(blocks, insn) ==> Proper(insn, ret)
    modifies ctx`joinTodo, ctx.ptg
    ensures ctx.ptg.Valid()
    ensures ok <==> forall insn :: Within(blocks, insn) ==> !Fails(insn)
    ensures ok ==> forall mems, x, y :: RunPoints(ctx.ptg.View(), blocks, ret, mems, x, y) ==> MayPoint(ctx.ptg, x, y)
    ensures ok ==> LeastSolution(ctx.ptg.View(), blocks, ret)
  {
    ghost var start := ctx.ptg.View();
    ghost var done := [];
    NoMoreAtFirst(start, done, ret);
    for i := 0 to |blocks|
      invariant ctx.ptg.Valid() && ctx.joinTodo == [] && Private(ctx.ptg.View(), ret)
      invariant forall insn :: insn in done <==> Within(blocks[..i], insn)
      invariant AllUpheld(ctx.ptg.View(), done, ret) && NoMoreThan(start, ctx.ptg.View(), done, ret)
      invariant forall insn :: insn in done ==> !Fails(insn)
    {
      WithinOne(blocks, i);
      ghost var before := ctx.ptg.View();
      ok := Phase1Block(ctx, blocks[i], ret, done);
      if !ok {
        return;
      }
      NoMoreTransitive(start, before, ctx.ptg.View(), done, blocks[i], ret);
      done := done + blocks[i];
    }
    assert blocks[..|blocks|] == blocks;
    RunsMayPoint(ctx.ptg, blocks, ret);
    LeastFromEmpty(ctx.ptg.View(), blocks, done, ret);
    ok := true;
  }

  lemma LeastFromEmpty(g: Shape, blocks: seq<seq<Insn>>, done: seq<Insn>, ret: Uid)
    requires WellFormed(g) && AllUpheld(g, done, ret) && NoMoreThan(Shape({}, map[], map[]), g, done, ret)
    requires forall insn :: insn in done <==> Within(blocks, insn)
    ensures LeastSolution(g, blocks, ret)
  {
    forall goal | Solves(goal, blocks, ret)
      ensures Fits(g, goal)
    {
      assert Morphism(Shape({}, map[], map[]), map[], goal);
    }
  }

  /** In a least solution one item may point to another exactly if it does so in every solution. */
  lemma MayPointMeans(ptg: Graph, blocks: seq<seq<Insn>>, ret: Uid, x: Uid, y: Uid)
    requires ptg.Valid() && LeastSolution(ptg.View(), blocks, ret)
    ensures MayPoint(ptg, x, y) <==> forall goal :: Solves(goal, blocks, ret) ==> Targets(goal, x, y)
  {
    hide Tells, HousedIn, Morphism, Upheld, MayPoint, Targets;
    MayPointTargets(ptg, x, y);
    if Targets(ptg.View(), x, y) {
      forall goal | Solves(goal, blocks, ret)
        ensures Targets(goal, x, y)
      {
        var k :| Morphism(ptg.View(), k, goal);
        MorphismTargets(ptg.View(), k, goal, x, y);
      }
    }
  }

  lemma MayPointTargets(ptg: Graph, x: Uid, y: Uid)
    requires ptg.Valid()
    ensures MayPoint(ptg, x, y) <==> Targets(ptg.View(), x, y)
  {}

  lemma MorphismTargets(g: Shape, k: map<Node, Node>, goal: Shape, x: Uid, y: Uid)
    requires Morphism(g, k, goal) && Targets(g, x, y)
    ensures Targets(goal, x, y)
  {}

  /** The textbook rules, of every graph that meets the constraints: for an address taken, a copy, a load, a store, and
      a returned pointer. */
  lemma PointerRules(g: Shape, blocks: seq<seq<Insn>>, ret: Uid, p: Uid, q: Uid, x: Uid, y: Uid)
    requires Solves(g, blocks, ret)
    ensures Within(blocks, Assign(VarOperand(p, [], true), VarOperand(x, [Ref], true))) ==> Targets(g, p, x)
    ensures Within(blocks, Assign(VarOperand(p, [], true), VarOperand(q, [], true))) ==>
      Targets(g, q, y) ==> Targets(g, p, y)
    ensures Within(blocks, Assign(VarOperand(p, [], true), VarOperand(q, [Deref], true))) ==>
      Targets(g, q, x) && Targets(g, x, y) ==> Targets(g, p, y)
    ensures Within(blocks, Assign(VarOperand(p, [Deref], true), VarOperand(q, [], true))) ==>
      Targets(g, p, x) && Targets(g, q, y) ==> Targets(g, x, y)
    ensures Within(blocks, Ret([VarOperand(q, [], true)])) && Targets(g, q, y) ==> Targets(g, ret, y)
  {
    var addr, copy := Assign(VarOperand(p, [], true), VarOperand(x, [Ref], true)),
      Assign(VarOperand(p, [], true), VarOperand(q, [], true));
    var load, store := Assign(VarOperand(p, [], true), VarOperand(q, [Deref], true)),
      Assign(VarOperand(p, [Deref], true), VarOperand(q, [], true));
    var returned := Ret([VarOperand(q, [], true)]);
    assert forall insn :: insn in {addr, copy, load, store, returned} && Within(blocks, insn) ==> Upheld(g, insn, ret);
    assert [Deref][1..] == [];
  }

  lemma WithinOne(blocks: seq<seq<Insn>>, i: nat)
    requires i < |blocks|
    ensures forall insn :: Within(blocks[..i + 1], insn) <==> Within(blocks[..i], insn) || insn in blocks[i]
    ensures forall insn :: insn in blocks[i] ==> Within(blocks, insn)
  {
    assert blocks[..i + 1] == blocks[..i] + [blocks[i]];
    assert blocks[i] in blocks && blocks[i] in blocks[..i + 1];
    forall insn | Within(blocks[..i], insn)
      ensures Within(blocks[..i + 1], insn)
    {
      var bb :| bb in blocks[..i] && insn in bb;
      assert bb in blocks[..i + 1];
    }
  }

  lemma RunsMayPoint(ptg: Graph, blocks: seq<seq<Insn>>, ret: Uid)
    requires ptg.Valid() && forall insn :: Within(blocks, insn) ==> Upheld(ptg.View(), insn, ret)
    ensures forall mems, x, y :: RunPoints(ptg.View(), blocks, ret, mems, x, y) ==> MayPoint(ptg, x, y)
  {
    forall mems, x, y | RunPoints(ptg.View(), blocks, ret, mems, x, y)
      ensures MayPoint(ptg, x, y)
    {
      RunAbstracted(ptg.View(), blocks, ret, mems, |mems| - 1);
    }
  }
}

