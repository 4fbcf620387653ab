/** The single-output points-to graph: nodes with at most one successor, joined until successors agree. */
module PointsToGraph {
  import Collections

  type Node = nat
  type Uid = nat

  /** The edges of a single-output graph. */
  type Edges = map<Node, Node>

  /** What a graph amounts to: its live nodes, their edges, and where the items live. */
  datatype Shape = Shape(live: set<Node>, out: Edges, home: map<Uid, Node>)

  ghost predicate WellFormed(g: Shape) {
    && (forall n :: n in g.out ==> n in g.live && g.out[n] in g.live)
    && (forall u :: u in g.home ==> g.home[u] in g.live)
  }

  function Redirect(n: Node, left: Node, right: Node): Node {
    if n == right then left else n
  }

  /** Edges into `right` turned to `left`, the edge out of `right` taken away. */
  function Turned(out: Edges, left: Node, right: Node): Edges {
    map n | n in out && n != right :: Redirect(out[n], left, right)
  }

  /** The edges once `right` has been absorbed by `left`. */
  function JoinedEdges(out: Edges, left: Node, right: Node): Edges {
    var turned := Turned(out, left, right);
    if right in out && left !in turned then turned[left := Redirect(out[right], left, right)] else turned
  }

  /** Items of `right` living in `left`. */
  function Rehoused(home: map<Uid, Node>, left: Node, right: Node): map<Uid, Node> {
    map u | u in home :: Redirect(home[u], left, right)
  }

  /** The targets that absorbing `right` leaves to be joined. */
  function JoinedTodo(out: Edges, left: Node, right: Node): seq<(Node, Node)> {
    if right in out && left in out && left != right then
      if out[right] == right then [(left, Redirect(out[left], left, right))]
      else [(Redirect(out[left], left, right), out[right])]
    else []
  }

  /** `right` absorbed by `left`. */
  function Joined(g: Shape, left: Node, right: Node): Shape {
    if left == right then g
    else Shape(g.live - {right}, JoinedEdges(g.out, left, right), Rehoused(g.home, left, right))
  }

  // ---------- representation ----------

  predicate Edge(out: Edges, n: Node, m: Node) {
    n in out && out[n] == m
  }

  /** Both edge maps tell the edges of `out`. */
  ghost predicate Tells(nodes: set<Node>, outNodes: map<Node, set<Node>>, inNodes: map<Node, set<Node>>, out: Edges) {
    && outNodes.Keys == nodes && inNodes.Keys == nodes
    && (forall n :: n in out ==> n in nodes && out[n] in nodes)
    && (forall n, m :: n in nodes ==> (m in outNodes[n] <==> Edge(out, n, m)))
    && (forall n, m :: m in nodes ==> (n in inNodes[m] <==> Edge(out, n, m)))
  }

  lemma TellsNode(nodes: set<Node>, outNodes: map<Node, set<Node>>, inNodes: map<Node, set<Node>>, out: Edges, n: Node)
    requires Tells(nodes, outNodes, inNodes, out) && n !in nodes
    ensures Tells(nodes + {n}, outNodes[n := {}], inNodes[n := {}], out)
  {}

  lemma TellsEdge(nodes: set<Node>, outNodes: map<Node, set<Node>>, inNodes: map<Node, set<Node>>, out: Edges, n: Node,
                  m: Node)
    requires Tells(nodes, outNodes, inNodes, out) && n in nodes && m in nodes && n !in out
    ensures Tells(nodes, outNodes[n := outNodes[n] + {m}], inNodes[m := inNodes[m] + {n}], out[n := m])
  {}

  /** Items live where they are listed; an absorbed node keeps its list, but nothing lives there. */
  ghost predicate HousedIn(nodes: set<Node>, absorbed: set<Node>, variables: map<Node, seq<Uid>>, home: map<Uid,
                           Node>) {
    && variables.Keys == nodes && absorbed <= nodes
    && (forall u :: u in home ==> home[u] in nodes && home[u] !in absorbed && u in variables[home[u]])
    && (forall n, u :: n in nodes && n !in absorbed && u in variables[n] ==> u in home && home[u] == n)
  }

  ghost predicate Among(live: set<Node>, out: Edges) {
    forall n :: n in out ==> n in live && out[n] in live
  }

  class Graph {
    var nodes: set<Node>
    var outNodes: map<Node, set<Node>>
    var inNodes: map<Node, set<Node>>
    var variables: map<Node, seq<Uid>>
    var home: map<Uid, Node>
    ghost var out: Edges
    ghost var absorbed: set<Node>

    ghost predicate Linked()
      reads this
    {
      Tells(nodes, outNodes, inNodes, out)
    }

    ghost predicate Valid()
      reads this
    {
      Linked() && HousedIn(nodes, absorbed, variables, home) && Among(nodes - absorbed, out)
    }

    ghost function View(): Shape
      reads this
    {
      Shape(nodes - absorbed, out, home)
    }

    constructor ()
      ensures Valid() && View() == Shape({}, map[], map[])
    {
      nodes, outNodes, inNodes, variables, home, out, absorbed := {}, map[], map[], map[], map[], map[], {};
    }

    method NewNode() returns (n: Node)
      requires Valid()
      modifies this`nodes, this`outNodes, this`inNodes, this`variables
      ensures Valid() && n !in old(nodes) && n in nodes && variables == old(variables)[n := []]
      ensures View() == old(View()).(live := old(View()).live + {n})
    {
      Collections.UnusedNumber(nodes);
      n :| n !in nodes;
      HouseNode(nodes, absorbed, variables, home, n);
      TellsNode(nodes, outNodes, inNodes, out, n);
      nodes := nodes + {n};
      outNodes, inNodes, variables := outNodes[n := {}], inNodes[n := {}], variables[n := []];
    }

    /** A node of its own for an item not in the graph. */
    method AllocNodeForItem(u: Uid) returns (n: Node)
      requires Valid() && u !in home
      modifies this`nodes, this`outNodes, this`inNodes, this`variables, this`home
      ensures Valid() && n !in old(nodes)
      ensures View() == Shape(old(View()).live + {n}, old(out), old(home)[u := n])
    {
      hide Tells, HousedIn;
      n := NewNode();
      HouseItem(nodes, absorbed, variables, home, n, u);
      assert variables[n] + [u] == [u];
      BindItem(n, u);
    }

    method AddEdge(from: Node, to: Node)
      requires Linked() && from in nodes && to in nodes && from !in out
      modifies this`outNodes, this`inNodes, this`out
      ensures Linked() && out == old(out)[from := to]
    {
      TellsEdge(nodes, outNodes, inNodes, out, from, to);
      outNodes := outNodes[from := outNodes[from] + {to}];
      inNodes := inNodes[to := inNodes[to] + {from}];
      out := out[from := to];
    }

    /** As `AddEdge`, between live nodes of a graph that is in order. */
    method AddLiveEdge(from: Node, to: Node)
      requires Valid() && from in View().live && to in View().live && from !in out
      modifies this`outNodes, this`inNodes, this`out
      ensures Valid() && View() == old(View()).(out := old(out)[from := to])
    {
      AddEdge(from, to);
    }

    method ClearEdgeS(from: Node, to: Node)
      requires Linked() && from in out && out[from] == to
      modifies this`outNodes, this`inNodes, this`out
      ensures Linked() && out == old(out) - {from}
    {
      outNodes := outNodes[from := outNodes[from] - {to}];
      inNodes := inNodes[to := inNodes[to] - {from}];
      out := out - {from};
    }

    method GetOutputS(n: Node) returns (found: bool, m: Node)
      requires Linked() && n in nodes
      ensures found <==> n in out
      ensures found ==> m == out[n]
    {
      found, m := outNodes[n] != {}, n;
      assert n in out ==> Edge(out, n, out[n]) && out[n] in outNodes[n];
      if found {
        m :| m in outNodes[n];
      }
    }

    /** Assigns an item to a node, or moves it there. */
    method BindItem(n: Node, u: Uid)
      requires n in variables
      modifies this`variables, this`home
      ensures home == old(home)[u := n]
      ensures variables == if u in old(variables)[n] then old(variables)
        else old(variables)[n := old(variables)[n] + [u]]
    {
      if u !in variables[n] {
        variables := variables[n := variables[n] + [u]];
      }
      home := home[u := n];
    }

    /** Maps everything listed by `right` to `left`. */
    method MoveVariables(left: Node, right: Node)
      requires left in variables && right in variables && left != right
      modifies this`variables, this`home
      ensures home == Moved(old(home), left, old(variables)[right])
      ensures Appended(old(variables), variables, left, old(variables)[right])
    {
      var moved := variables[right];
      assert moved[..0] == [];
      for i := 0 to |moved|
        invariant home == Moved(old(home), left, moved[..i])
        invariant Appended(old(variables), variables, left, moved[..i])
      {
        assert moved[..i + 1] == moved[..i] + [moved[i]];
        MovedOne(old(home), left, moved[..i], moved[i]);
        BindItem(left, moved[i]);
      }
      assert moved[..|moved|] == moved;
    }

    /** Takes out all edges at `right` and lists them. */
    method HarvestEdges(right: Node) returns (pairs: seq<(Node, Node)>)
      requires Linked() && right in nodes
      modifies this`outNodes, this`inNodes, this`out
      ensures Linked() && AtRight(old(out), right, pairs) && NoRepeat(pairs)
      ensures out == Isolated(old(out), right)
    {
      pairs := [];
      ghost var was := out;
      while inNodes[right] != {}
        invariant Linked() && Harvesting(was, out, right, pairs)
        decreases inNodes[right]
      {
        var from :| from in inNodes[right];
        assert Edge(out, from, right);
        HarvestOne(was, out, right, pairs, from);
        pairs := pairs + [(from, right)];
        ClearEdgeS(from, right);
      }
      assert forall n :: !Edge(out, n, right);
      HarvestedIn(was, out, right, pairs);
      var found, target := GetOutputS(right);
      if found {
        pairs := pairs + [(right, target)];
        ClearEdgeS(right, target);
      }
    }

    /** Puts the harvested incoming edges back, to `left`; reports the harvested target of `right`. */
    method RedirectEdges(pairs: seq<(Node, Node)>, left: Node, right: Node, ghost was: Edges)
      returns (found: bool, target: Node)
      requires Linked() && left in nodes && right in nodes && left != right
      requires AtRight(was, right, pairs) && out == Isolated(was, right) && forall n :: n in was ==> n in nodes
      requires NoRepeat(pairs)
      modifies this`outNodes, this`inNodes, this`out
      ensures Linked() && out == Turned(was, left, right)
      ensures found <==> right in was
      ensures found ==> target == was[right]
    {
      found, target := false, right;
      for i := 0 to |pairs|
        invariant Linked() && Returning(was, out, left, right, pairs, i)
        invariant found <==> exists k :: 0 <= k < i && pairs[k].0 == right
        invariant found ==> right in was && target == was[right]
      {
        assert pairs[i] in pairs;
        ReturnOne(was, out, left, right, pairs, i);
        if pairs[i].0 != right {
          AddEdge(pairs[i].0, left);
        } else {
          found, target := true, pairs[i].1;
        }
      }
      ReturnedAll(was, out, left, right, pairs);
      assert right in was ==> (right, was[right]) in pairs;
    }
  }

  class BuildCtx {
    const ptg: Graph
    var joinTodo: seq<(Node, Node)>

    constructor (ptg: Graph)
      ensures this.ptg == ptg && joinTodo == []
    {
      this.ptg := ptg;
      joinTodo := [];
    }

    /** Turns all edges at `right` to `left`, but for that out of `right`, which is reported. */
    method TakeEdges(left: Node, right: Node) returns (found: bool, target: Node)
      requires ptg.Linked() && left in ptg.nodes && right in ptg.nodes && left != right
      modifies ptg`outNodes, ptg`inNodes, ptg`out
      ensures ptg.Linked() && ptg.out == Turned(old(ptg.out), left, right)
      ensures found <==> right in old(ptg.out)
      ensures found ==> target == old(ptg.out)[right]
    {
      ghost var was := ptg.out;
      var pairs := ptg.HarvestEdges(right);
      found, target := ptg.RedirectEdges(pairs, left, right, was);
    }

    /** Gives `left` the successor of the node it has absorbed, or leaves the two successors to be joined. */
    method SettleOutput(left: Node, right: Node, rightTarget: Node)
      requires ptg.Linked() && left in ptg.nodes && rightTarget in ptg.nodes
      modifies this`joinTodo, ptg`outNodes, ptg`inNodes, ptg`out
      ensures ptg.Linked()
      ensures ptg.out == if left in old(ptg.out) then old(ptg.out)
        else old(ptg.out)[left := Redirect(rightTarget, left, right)]
      ensures joinTodo == old(joinTodo) + if left !in old(ptg.out) then []
        else if rightTarget == right then [(left, old(ptg.out)[left])] else [(old(ptg.out)[left], rightTarget)]
    {
      var hasLeft, leftTarget := ptg.GetOutputS(left);
      if rightTarget == right {
        // the absorbed node had a self-loop
        if !hasLeft {
          ptg.AddEdge(left, left);
          return;
        }
        joinTodo := joinTodo + [(left, leftTarget)];
        return;
      }
      if !hasLeft {
        ptg.AddEdge(left, rightTarget);
        return;
      }
      joinTodo := joinTodo + [(leftTarget, rightTarget)];
    }

    /** Moves the items of `right` to `left`. */
    method AbsorbItems(left: Node, right: Node)
      requires HousedIn(ptg.nodes, ptg.absorbed, ptg.variables, ptg.home) && left != right
      requires left in ptg.nodes - ptg.absorbed && right in ptg.nodes - ptg.absorbed
      modifies ptg`variables, ptg`home, ptg`absorbed
      ensures HousedIn(ptg.nodes, ptg.absorbed, ptg.variables, ptg.home)
      ensures ptg.nodes - ptg.absorbed == old(ptg.nodes - ptg.absorbed) - {right}
      ensures ptg.home == Rehoused(old(ptg.home), left, right)
    {
      ghost var variables, home := ptg.variables, ptg.home;
      ptg.MoveVariables(left, right);
      MovedHome(ptg.nodes, ptg.absorbed, variables, home, ptg.variables, left, right);
      ptg.absorbed := ptg.absorbed + {right};
    }

    /** Moves the edges at `right` to `left`; two successors are left to be joined. */
    method AbsorbEdges(left: Node, right: Node)
      requires ptg.Linked() && left in ptg.nodes && right in ptg.nodes && left != right
      modifies this`joinTodo, ptg`outNodes, ptg`inNodes, ptg`out
      ensures ptg.Linked() && ptg.out == JoinedEdges(old(ptg.out), left, right)
      ensures joinTodo == old(joinTodo) + JoinedTodo(old(ptg.out), left, right)
    {
      var found, target := TakeEdges(left, right);
      if found {
        SettleOutput(left, right, target);
      }
    }

    /** Lets `left` absorb `right`; if both had a successor, the two successors are left to be joined. */
    method JoinNodesS(left: Node, right: Node)
      requires ptg.Valid() && left in ptg.View().live && right in ptg.View().live
      modifies this`joinTodo, ptg
      ensures ptg.Valid() && ptg.View() == Joined(old(ptg.View()), left, right)
      ensures joinTodo == old(joinTodo) + JoinedTodo(old(ptg.out), left, right)
    {
      if left == right {
        return;
      }
      JoinedAmong(ptg.nodes - ptg.absorbed, ptg.out, left, right);
      AbsorbItems(left, right);
      AbsorbEdges(left, right);
    }
  }

  // ---------- items ----------

  lemma HouseNode(nodes: set<Node>, absorbed: set<Node>, variables: map<Node, seq<Uid>>, home: map<Uid, Node>, n: Node)
    requires HousedIn(nodes, absorbed, variables, home) && n !in nodes
    ensures HousedIn(nodes + {n}, absorbed, variables[n := []], home)
    ensures nodes + {n} - absorbed == nodes - absorbed + {n}
  {}

  lemma HouseItem(nodes: set<Node>, absorbed: set<Node>, variables: map<Node, seq<Uid>>, home: map<Uid, Node>, n: Node,
                  u: Uid)
    requires HousedIn(nodes, absorbed, variables, home) && u !in home && n in nodes - absorbed && variables[n] == []
    ensures HousedIn(nodes, absorbed, variables[n := [u]], home[u := n])
  {}

  /** Moving what `right` lists to `left` moves what lives there, and leaves `right` with nothing of its own. */
  lemma MovedHome(nodes: set<Node>, absorbed: set<Node>, variables: map<Node, seq<Uid>>, home: map<Uid, Node>,
                  variables': map<Node, seq<Uid>>, left: Node, right: Node)
    requires HousedIn(nodes, absorbed, variables, home) && left in nodes - absorbed && right in nodes - absorbed
    requires left != right && Appended(variables, variables', left, variables[right])
    ensures Moved(home, left, variables[right]) == Rehoused(home, left, right)
    ensures HousedIn(nodes, absorbed + {right}, variables', Moved(home, left, variables[right]))
  {
    hide HousedIn, Appended, Moved, Rehoused;
    MovedIsRedirected(nodes, absorbed, variables, home, left, right);
    RedirectedHoused(nodes, absorbed, variables, home, variables', left, right);
  }

  lemma MovedIsRedirected(nodes: set<Node>, absorbed: set<Node>, variables: map<Node, seq<Uid>>, home: map<Uid, Node>,
                          left: Node, right: Node)
    requires HousedIn(nodes, absorbed, variables, home) && right in nodes - absorbed
    ensures right in variables
    ensures Moved(home, left, variables[right]) == Rehoused(home, left, right)
  {}

  lemma RedirectedHoused(nodes: set<Node>, absorbed: set<Node>, variables: map<Node, seq<Uid>>, home: map<Uid, Node>,
                         variables': map<Node, seq<Uid>>, left: Node, right: Node)
    requires HousedIn(nodes, absorbed, variables, home) && left in nodes - absorbed && right in nodes - absorbed
    requires left != right && Appended(variables, variables', left, variables[right])
    ensures HousedIn(nodes, absorbed + {right}, variables', Rehoused(home, left, right))
  {}

  lemma JoinedAmong(live: set<Node>, out: Edges, left: Node, right: Node)
    requires Among(live, out) && left in live && right in live && left != right
    ensures Among(live - {right}, JoinedEdges(out, left, right))
  {}

  function Moved(home: map<Uid, Node>, left: Node, us: seq<Uid>): map<Uid, Node> {
    map u | u in home.Keys + (set v | v in us) :: if u in us then left else home[u]
  }

  lemma MovedOne(home: map<Uid, Node>, left: Node, us: seq<Uid>, u: Uid)
    ensures Moved(home, left, us + [u]) == Moved(home, left, us)[u := left]
  {}

  /** Only the list of `left` has changed; it has gained `us`. */
  ghost predicate Appended(before: map<Node, seq<Uid>>, after: map<Node, seq<Uid>>, left: Node, us: seq<Uid>) {
    && after.Keys == before.Keys
    && (forall n :: n in before && n != left ==> after[n] == before[n])
    && (left in before ==> forall u :: u in after[left] <==> u in before[left] || u in us)
  }

  // ---------- edges ----------

  ghost predicate NoRepeat(pairs: seq<(Node, Node)>) {
    forall i, j :: 0 <= i < j < |pairs| ==> pairs[i] != pairs[j]
  }

  /** `pairs` lists the edges into and out of `right`. */
  ghost predicate AtRight(out: Edges, right: Node, pairs: seq<(Node, Node)>) {
    forall p :: p in pairs <==> p.0 in out && out[p.0] == p.1 && (p.0 == right || p.1 == right)
  }

  /** No edge at `right` is left. */
  function Isolated(out: Edges, right: Node): Edges {
    map n | n in out && n != right && out[n] != right :: out[n]
  }

  /** Some of the edges into `right` have been taken out and listed. */
  ghost predicate Harvesting(was: Edges, out: Edges, right: Node, pairs: seq<(Node, Node)>) {
    && out == (map n | n in was && (n, right) !in pairs :: was[n])
    && (forall p :: p in pairs ==> p.0 in was && was[p.0] == right && p.1 == right)
    && NoRepeat(pairs)
  }

  lemma HarvestOne(was: Edges, out: Edges, right: Node, pairs: seq<(Node, Node)>, n: Node)
    requires Harvesting(was, out, right, pairs) && Edge(out, n, right)
    ensures Harvesting(was, out - {n}, right, pairs + [(n, right)])
  {}

  lemma HarvestedIn(was: Edges, out: Edges, right: Node, pairs: seq<(Node, Node)>)
    requires Harvesting(was, out, right, pairs) && forall n :: !Edge(out, n, right)
    ensures right !in out ==> AtRight(was, right, pairs) && out == Isolated(was, right)
    ensures right in out ==>
      AtRight(was, right, pairs + [(right, out[right])]) && NoRepeat(pairs + [(right, out[right])])
    ensures right in out ==> out - {right} == Isolated(was, right)
  {
    forall n | n in was && was[n] == right
      ensures (n, right) in pairs
    {
      assert !Edge(out, n, right);
    }
  }

  lemma ReturnOne(was: Edges, out: Edges, left: Node, right: Node, pairs: seq<(Node, Node)>, i: nat)
    requires i < |pairs| && AtRight(was, right, pairs) && Returning(was, out, left, right, pairs, i)
    requires NoRepeat(pairs)
    ensures pairs[i].0 != right ==>
      pairs[i].0 !in out && Returning(was, out[pairs[i].0 := left], left, right, pairs, i + 1)
    ensures pairs[i].0 == right ==> Returning(was, out, left, right, pairs, i + 1)
  {
    assert pairs[i] in pairs && pairs[..i + 1] == pairs[..i] + [pairs[i]];
  }

  lemma ReturnedAll(was: Edges, out: Edges, left: Node, right: Node, pairs: seq<(Node, Node)>)
    requires AtRight(was, right, pairs) && Returning(was, out, left, right, pairs, |pairs|)
    ensures out == Turned(was, left, right)
  {
    assert pairs[..|pairs|] == pairs;
    forall n | n in was && was[n] == right
      ensures (n, right) in pairs
    {}
  }

  /** The first `i` of the listed edges have been put back, but to `left`. */
  ghost predicate Returning(was: Edges, out: Edges, left: Node, right: Node, pairs: seq<(Node, Node)>, i: nat)
    requires i <= |pairs|
  {
    out == map n | n in was && n != right && (was[n] != right || (n, right) in pairs[..i]) ::
      Redirect(was[n], left, right)
  }
}
