/** Depth-first traversal of the root graph, which also climbs back along selectors, and the search for garbage. */
module RootTraversal {
  import opened RootGraph
  import Collections

  /** A variable of the program: a reference to a root, or something else. */
  datatype Data = RootRef(root: nat) | NoRef

  class Traversal {
    const data: ConnectionData
    ghost const forest: set<nat>
    /** The indexes at which the source's bit vectors hold true. */
    var visited: set<nat>
    var order: seq<nat>
    var marked: set<nat>

    constructor (data: ConnectionData, ghost forest: set<nat>)
      ensures this.data == data && this.forest == forest && Now() == State({}, [], {})
    {
      this.data, this.forest := data, forest;
      visited, order, marked := {}, [], {};
    }

    ghost function Now(): State
      reads this
    {
      State(visited, order, marked)
    }

    ghost predicate Sound() {
      Coherent(data, forest)
    }

    /** Up along backward selectors to a root from which `c` hangs, over roots not visited. */
    method Climb(c: nat, mask: set<nat>) returns (top: nat, ghost path: seq<nat>)
      requires Sound() && c in forest && c !in visited && visited <= All(data)
      ensures FreshPath(data, visited, path) && path[0] == top && path[|path| - 1] == c
      ensures forall others :: Closed(data, others) && c in others ==> top in others
      decreases All(data) - mask
    {
      top, path := c, [c];
      if c in mask {
        return;
      }
      if data[c].bwdMap == map[] {
        return;
      }
      var rest := data[c].bwdMap.Keys;
      while rest != {}
        invariant rest <= data[c].bwdMap.Keys && top == c && path == [c]
      {
        var sel := Collections.Smallest(rest);
        var p := data[c].bwdMap[sel];
        rest := rest - {sel};
        if p !in visited {
          assert p in Pred(data, c) && p in Near(data, c);
          assert c in All(data) - mask;
          ghost var tail;
          top, tail := Climb(p, mask + {c});
          path := tail + [c];
          return;
        }
      }
    }

    /** The first overload, which lists and marks. */
    method Visit(c: nat)
      requires Sound() && c in forest && visited <= All(data)
      modifies this
      ensures Visited(data, old(Now()), Now(), c)
      decreases All(data) - visited, 0, 0
    {
      if c in visited {
        marked := marked + {c};
        return;
      }
      visited := visited + {c};
      order := order + [c];
      MidwayStart(data, old(Now()), Now(), c);
      VisitForward(c, old(Now()));
      VisitBackward(c, old(Now()));
    }

    method VisitForward(c: nat, ghost before: State)
      requires Sound() && c in forest && Midway(data, before, Now(), c, 0, {})
      modifies this
      ensures old(visited) <= visited
      ensures Midway(data, before, Now(), c, |data[c].signature|, {})
      decreases All(data) - visited, 2
    {
      hide Midway;
      for i := 0 to |data[c].signature|
        invariant old(visited) <= visited && Midway(data, before, Now(), c, i, {})
      {
        VisitTarget(c, i, before);
      }
    }

    /** One root reachable forward. */
    method VisitTarget(c: nat, i: nat, ghost before: State)
      requires Sound() && c in forest && i < |data[c].signature|
      requires Midway(data, before, Now(), c, i, {})
      modifies this
      ensures old(visited) <= visited && Midway(data, before, Now(), c, i + 1, {})
      decreases All(data) - visited, 1
    {
      assert data[c].signature[i].root in Near(data, c);
      ghost var after := VisitAndMark(data[c].signature[i]);
      MidwayForward(data, before, old(Now()), after, Now(), c, i, {});
    }

    method VisitAndMark(cutpoint: CutpointInfo) returns (ghost after: State)
      requires Sound() && cutpoint.root in forest && visited <= All(data)
      modifies this
      ensures Visited(data, old(Now()), after, cutpoint.root) && old(visited) <= visited
      ensures Now() == after.(marked := after.marked + if cutpoint.refCount > 1 then {cutpoint.root} else {})
      decreases All(data) - visited, 0, 1
    {
      Visit(cutpoint.root);
      after := Now();
      if cutpoint.refCount > 1 {
        marked := marked + {cutpoint.root};
      }
    }

    method VisitBackward(c: nat, ghost before: State)
      requires Sound() && c in forest
      requires Midway(data, before, Now(), c, |data[c].signature|, {})
      modifies this
      ensures Visited(data, before, Now(), c)
      decreases All(data) - visited, 2
    {
      var rest := data[c].bwdMap.Keys;
      while rest != {}
        invariant rest <= data[c].bwdMap.Keys && old(visited) <= visited
        invariant Midway(data, before, Now(), c, |data[c].signature|, PredWithout(data, c, rest))
      {
        var sel := Collections.Smallest(rest);
        VisitAncestor(c, sel, before, PredWithout(data, c, rest));
        PredNext(data, c, rest, sel);
        rest := rest - {sel};
      }
      MidwayDone(data, before, Now(), c, PredWithout(data, c, {}));
    }

    /** One root that a selector leads back to. */
    method VisitAncestor(c: nat, sel: Word, ghost before: State, ghost done: set<nat>)
      requires Sound() && c in forest && sel in data[c].bwdMap
      requires Midway(data, before, Now(), c, |data[c].signature|, done)
      modifies this
      ensures old(visited) <= visited
      ensures Midway(data, before, Now(), c, |data[c].signature|, done + {data[c].bwdMap[sel]})
      decreases All(data) - visited, 1
    {
      var p := data[c].bwdMap[sel];
      if p in visited {
        return;
      }
      assert p in Near(data, c);
      var top, path := Climb(p, {c});
      assert top != c;  // what the source tests here cannot happen
      marked := marked + {top};
      Visit(top);
      FreshPathExplored(data, old(visited), visited, path, |path| - 1);
      if WellListed(before) {
        ClimbEnds(data, before, old(Now()), Now(), c, done, path);
      }
      MidwayClimbed(data, before, old(Now()), top, Now(), c, done, p);
    }

    /** The second overload, which only visits. */
    method VisitPlain(c: nat)
      requires Sound() && c in forest && visited <= All(data)
      modifies this`visited
      ensures Explored(data, old(visited), visited, c)
      decreases All(data) - visited, 0
    {
      if c in visited {
        return;
      }
      visited := visited + {c};
      ExploringStart(data, old(visited), c);
      for i := 0 to |data[c].signature|
        invariant old(visited) + {c} <= visited && Exploring(data, old(visited), visited, c, {})
        invariant forall j :: 0 <= j < i ==> data[c].signature[j].root in visited
      {
        VisitTargetPlain(c, i, old(visited));
      }
      VisitBackwardPlain(c, old(visited));
    }

    method VisitTargetPlain(c: nat, i: nat, ghost before: set<nat>)
      requires Sound() && c in forest && i < |data[c].signature|
      requires Exploring(data, before, visited, c, {})
      modifies this`visited
      ensures old(visited) <= visited && Exploring(data, before, visited, c, {})
      ensures data[c].signature[i].root in visited
      decreases All(data) - visited, 1
    {
      var t := data[c].signature[i].root;
      assert t in Near(data, c);
      VisitPlain(t);
      ExploringMore(data, before, old(visited), visited, c, {}, t, t);
    }

    method VisitBackwardPlain(c: nat, ghost before: set<nat>)
      requires Sound() && c in forest && Exploring(data, before, visited, c, {})
      requires forall j :: 0 <= j < |data[c].signature| ==> data[c].signature[j].root in visited
      modifies this`visited
      ensures Explored(data, before, visited, c)
      decreases All(data) - visited, 2
    {
      var rest := data[c].bwdMap.Keys;
      while rest != {}
        invariant rest <= data[c].bwdMap.Keys && old(visited) <= visited
        invariant Exploring(data, before, visited, c, PredWithout(data, c, rest))
      {
        var sel := Collections.Smallest(rest);
        VisitAncestorPlain(c, sel, before, PredWithout(data, c, rest));
        PredNext(data, c, rest, sel);
        rest := rest - {sel};
      }
      assert PredWithout(data, c, {}) == Pred(data, c);
      assert Exploring(data, before, visited, c, Near(data, c));
      ExploringDone(data, before, visited, c);
    }

    method VisitAncestorPlain(c: nat, sel: Word, ghost before: set<nat>, ghost done: set<nat>)
      requires Sound() && c in forest && sel in data[c].bwdMap && Exploring(data, before, visited, c, done)
      modifies this`visited
      ensures old(visited) <= visited && Exploring(data, before, visited, c, done + {data[c].bwdMap[sel]})
      decreases All(data) - visited, 1
    {
      var p := data[c].bwdMap[sel];
      if p in visited {
        return;
      }
      assert p in Near(data, c);
      var top, path := Climb(p, {c});
      assert top != c;  // what the source tests here cannot happen
      VisitPlain(top);
      FreshPathExplored(data, old(visited), visited, path, |path| - 1);
      ExploringMore(data, before, old(visited), visited, c, done, top, p);
    }

    /** Everything that hangs together with what the variables refer to: visited, listed and marked. */
    method Traverse(vars: seq<Data>)
      requires Sound() && Now() == State({}, [], {}) && ValidVars(forest, vars)
      modifies this
      ensures LeastClosed(data, Referred(vars), visited)
      ensures Listed([], order, {}, visited)
      ensures Referred(vars) <= marked && MarksTell(data, RefsOf(data, visited), visited, marked)
      ensures Preceded(data, order, 0, marked)
      ensures forall r :: r in marked ==> MarkedFor(data, Referred(vars), Now(), r)
    {
      TraversedStart(data);
      assert vars[..0] == [];
      for i := 0 to |vars|
        invariant Traversed(data, Referred(vars[..i]), Now())
      {
        ReferredMore(vars, i);
        match vars[i] {
          case NoRef =>
          case RootRef(root) => TraverseFrom(root, Referred(vars[..i]));
        }
      }
      assert vars[..|vars|] == vars;
    }

    method TraverseFrom(root: nat, ghost from: set<nat>)
      requires Sound() && Traversed(data, from, Now()) && root in forest
      modifies this
      ensures Traversed(data, from + {root}, Now())
    {
      marked := marked + {root};
      TraversedMarked(data, from, old(Now()), Now(), root);
      if root in visited {
        return;
      }
      ghost var before := Now();
      Visit(root);
      TraversedMore(data, from, before, Now(), root);
    }

    /** The same without listing and marking. */
    method TraversePlain(vars: seq<Data>)
      requires Sound() && visited == {} && ValidVars(forest, vars)
      modifies this`visited
      ensures LeastClosed(data, Referred(vars), visited)
    {
      assert vars[..0] == [] && Referred([]) == {};
      for i := 0 to |vars|
        invariant visited <= All(data) && LeastClosed(data, Referred(vars[..i]), visited)
      {
        ReferredMore(vars, i);
        if vars[i].RootRef? && vars[i].root !in visited {
          ghost var before := visited;
          VisitPlain(vars[i].root);
          ClosedMore(data, Referred(vars[..i]), before, visited, vars[i].root);
        }
      }
      assert vars[..|vars|] == vars;
    }

    /** Whether some root of the forest (`live`) was not visited. */
    method CheckGarbage(live: seq<bool>) returns (garbage: bool)
      requires |live| == |data|
      ensures garbage <==> !(Forest(live) <= visited)
    {
      garbage := false;
      for i := 0 to |live|
        invariant garbage <==> exists j :: 0 <= j < i && live[j] && j !in visited
      {
        if !live[i] {
          continue;
        }
        if i !in visited {
          garbage := true;
        }
      }
    }
  }

  ghost function Forest(live: seq<bool>): set<nat> {
    set i | 0 <= i < |live| && live[i]
  }

  /** Garbage is found if and only if a root of the forest does not hang together with the variables. */
  method Check(data: ConnectionData, vars: seq<Data>, live: seq<bool>) returns (garbage: bool)
    requires |live| == |data| && Coherent(data, Forest(live)) && ValidVars(Forest(live), vars)
    ensures exists reach :: LeastClosed(data, Referred(vars), reach)
    ensures forall reach :: LeastClosed(data, Referred(vars), reach) ==> (garbage <==> !(Forest(live) <= reach))
  {
    var t := new Traversal(data, Forest(live));
    t.TraversePlain(vars);
    garbage := t.CheckGarbage(live);
    forall reach | LeastClosed(data, Referred(vars), reach)
      ensures reach == t.visited
    {
      LeastClosedUnique(data, Referred(vars), reach, t.visited);
    }
  }

  // ---------- from variable to variable ----------

  ghost predicate ValidVars(forest: set<nat>, vars: seq<Data>) {
    forall i :: 0 <= i < |vars| && vars[i].RootRef? ==> vars[i].root in forest
  }

  ghost function Referred(vars: seq<Data>): set<nat> {
    set v | v in vars && v.RootRef? :: v.root
  }

  lemma ReferredMore(vars: seq<Data>, i: nat)
    requires i < |vars|
    ensures Referred(vars[..i + 1]) == Referred(vars[..i]) + if vars[i].RootRef? then {vars[i].root} else {}
  {
    assert vars[..i + 1] == vars[..i] + [vars[i]];
  }

  ghost predicate Traversed(data: ConnectionData, from: set<nat>, now: State) {
    TraversedFor(data, from, from, now)
  }

  /** All that hangs together with `from` was traversed, and roots in `why` were marked. */
  ghost predicate TraversedFor(data: ConnectionData, from: set<nat>, why: set<nat>, now: State) {
    && now.visited <= All(data) && LeastClosed(data, from, now.visited)
    && Listed([], now.order, {}, now.visited)
    && from <= why <= now.marked && MarksTell(data, RefsOf(data, now.visited), now.visited, now.marked)
    && Preceded(data, now.order, 0, now.marked)
    && forall r :: r in now.marked ==> MarkedFor(data, why, now, r)
  }

  /** Why a root is marked: a variable refers to it; or several references do, or one that counts for several, or its
      own; or it was climbed to. */
  ghost predicate MarkedFor(data: ConnectionData, from: set<nat>, now: State, r: nat) {
    || r in from
    || (r in now.visited && (Several(data, RefsOf(data, now.visited), r) || Climbed(data, now.order, r)))
  }

  /** A traversal from `root` adds no mark without a reason. */
  lemma TraversedReasons(data: ConnectionData, from: set<nat>, before: State, now: State, root: nat)
    requires TraversedFor(data, from, from + {root}, before) && Visited(data, before, now, root)
    requires root !in before.visited
    ensures forall r :: r in now.marked ==> MarkedFor(data, from + {root}, now, r)
  {
    hide Climbed, Several, NoneTo;
    var refs, more := RefsOf(data, before.visited), RefsOf(data, now.visited - before.visited);
    assert refs + more == RefsOf(data, now.visited);
    OrderIsVisited(before);
    forall r | r in now.marked
      ensures MarkedFor(data, from + {root}, now, r)
    {
      if r in before.marked {
        assert MarkedFor(data, from + {root}, before, r);
        if Several(data, refs, r) {
          SeveralMore(data, refs, more, r);
        } else if Climbed(data, before.order, r) {
          ClimbedMore(data, before.order, now.order, r);
        }
      } else {
        assert Reason(data, more, now.visited - before.visited - {root}, now.order, r);
        if r in now.visited - before.visited {
          if Several(data, more, r) {
            SeveralMore(data, more, refs, r);
            assert more + refs == refs + more;
          }
        } else {
          NewMark(data, before, now, root, r);
        }
      }
    }
  }

  /** A root visited and not marked before gets its mark for a second reference. */
  lemma NewMark(data: ConnectionData, before: State, now: State, root: nat, r: nat)
    requires MarksTell(data, RefsOf(data, before.visited), before.visited, before.marked) && r !in before.marked
    requires Explored(data, before.visited, now.visited, root) && r !in now.visited - before.visited
    requires !NoneTo(data, RefsOf(data, now.visited - before.visited), r)
    ensures r in now.visited && Several(data, RefsOf(data, now.visited), r)
  {
    hide NoneTo, OneTo;
    var refs, more := RefsOf(data, before.visited), RefsOf(data, now.visited - before.visited);
    assert Told(data, refs, before.visited, before.marked, r);
    ReferredIsVisited(data, before.visited, now.visited, root, r);
    OneIsSome(data, refs, r);
    TwoAreSeveral(data, refs, more, r);
    assert refs + more == RefsOf(data, now.visited);
  }

  lemma ReferredIsVisited(data: ConnectionData, before: set<nat>, after: set<nat>, root: nat, r: nat)
    requires Explored(data, before, after, root) && !NoneTo(data, RefsOf(data, after - before), r)
    ensures r in after
  {
    var p :| p in RefsOf(data, after - before) && IsRef(data, p) && Target(data, p) == r;
    assert Target(data, p) in Near(data, p.x);
  }

  lemma OrderIsVisited(now: State)
    requires Listed([], now.order, {}, now.visited)
    ensures WellListed(now)
  {
    forall x | x in now.visited
      ensures x in now.order
    {
      assert ListedAfter(now.order, 0, x);
    }
  }

  lemma TraversedStart(data: ConnectionData)
    ensures Traversed(data, Referred([]), State({}, [], {}))
  {
    assert Referred([]) == {};
  }

  /** A root that a variable refers to is marked. */
  lemma TraversedMarked(data: ConnectionData, from: set<nat>, before: State, now: State, root: nat)
    requires Traversed(data, from, before) && now == before.(marked := before.marked + {root})
    ensures TraversedFor(data, from, from + {root}, now)
    ensures root in now.visited ==> Traversed(data, from + {root}, now)
  {
    hide Climbed, Several;
    forall r
      ensures Told(data, RefsOf(data, now.visited), now.visited, now.marked, r)
    {
      assert Told(data, RefsOf(data, now.visited), now.visited, before.marked, r);
    }
    forall r | r in now.marked
      ensures MarkedFor(data, from + {root}, now, r)
    {
      assert r in before.marked ==> MarkedFor(data, from, before, r);
    }
    assert now.order[..|before.order|] == before.order;
    PrecededMore(data, before.order, now.order, 0, before.marked, now.marked);
  }

  lemma TraversedMore(data: ConnectionData, from: set<nat>, before: State, now: State, root: nat)
    requires TraversedFor(data, from, from + {root}, before) && Visited(data, before, now, root)
    requires root !in before.visited
    ensures Traversed(data, from + {root}, now)
  {
    TraversedReasons(data, from, before, now, root);
    ClosedMore(data, from, before.visited, now.visited, root);
    ListedMore([], before.order, now.order, {}, before.visited, now.visited);
    PrecededMore(data, before.order, now.order, 0, before.marked, now.marked);
    var more, later := RefsOf(data, now.visited - before.visited), now.visited - before.visited;
    forall r
      ensures Told(data, more, later, now.marked, r)
    {
      assert Told(data, more, later - {root}, now.marked, r);
    }
    forall p | p in RefsOf(data, before.visited) && IsRef(data, p)
      ensures Target(data, p) in before.visited
    {
      assert Target(data, p) in Near(data, p.x);
    }
    MarksJoin(data, RefsOf(data, before.visited), more, before.visited, later, before.visited, before.marked,
      now.marked);
    assert RefsOf(data, before.visited) + more == RefsOf(data, now.visited);
    assert before.visited + later == now.visited;
  }

  lemma ClosedMore(data: ConnectionData, from: set<nat>, before: set<nat>, after: set<nat>, root: nat)
    requires LeastClosed(data, from, before) && Explored(data, before, after, root)
    ensures LeastClosed(data, from + {root}, after)
  {
    forall x {:trigger Near(data, x)} | x in after && x < |data|
      ensures Near(data, x) <= after
    {
    }
  }

  ghost function PredWithout(data: ConnectionData, c: nat, rest: set<Word>): set<nat>
    requires c < |data|
  {
    set sel | sel in data[c].bwdMap && sel !in rest :: data[c].bwdMap[sel]
  }

  lemma PredNext(data: ConnectionData, c: nat, rest: set<Word>, sel: Word)
    requires c < |data| && sel in rest && sel in data[c].bwdMap
    ensures PredWithout(data, c, rest - {sel}) ==
            PredWithout(data, c, rest) + {data[c].bwdMap[sel]}
  {
  }
}
