/** The inclusion check of two tree automata: a worklist over (state, macro-state) elements that keeps only
    minimal ones, started from the leaves and closed under successors. */
module Inclusion {
  import Antichain
  import opened Buckets
  import opened InclusionRuns
  import opened InclusionVerdicts
  import opened Odometer
  import RenamedUnion
  import opened StateCache
  import opened TreeAutomata

  ghost predicate FoundBy(lists: map<nat, seq<Transition>>, ts: seq<Transition>, leaves: bool) {
    forall t, s :: t in Found(lists, s) <==> t in ts && t.symbol == s && (t.lhs == [] <==> leaves)
  }

  function Found(lists: map<nat, seq<Transition>>, s: nat): seq<Transition> {
    if s in lists then lists[s] else []
  }

  function Appended(lists: map<nat, seq<Transition>>, t: Transition): (r: map<nat, seq<Transition>>)
    ensures forall s :: Found(r, s) == if s == t.symbol then Found(lists, s) + [t] else Found(lists, s)
  {
    lists[t.symbol := Found(lists, t.symbol) + [t]]
  }

  type TransIndex = seq<seq<seq<Transition>>>

  /** The transitions listed for a state at a child position. */
  function RowAt(index: TransIndex, q: nat, i: nat): seq<Transition>
    requires q < |index|
  {
    if i < |index[q]| then index[q][i] else []
  }

  ghost predicate IndexedByFirst(index: TransIndex, ts: seq<Transition>, countB: nat) {
    forall q: nat, i: nat, t :: q < |index| ==>
      (t in RowAt(index, q, i) <==> t in ts && FirstAt(t.lhs, i) && t.lhs[i] == q + countB)
  }

  /** Lists a transition under each of its child states, at the first position of that state only. */
  method AAddTransition(index: TransIndex, t: Transition, countB: nat) returns (r: TransIndex)
    requires forall i :: 0 <= i < |t.lhs| ==> countB <= t.lhs[i] < countB + |index|
    ensures |r| == |index|
    ensures forall q: nat, i: nat :: q < |index| ==>
      RowAt(r, q, i) == RowAt(index, q, i) + if FirstAt(t.lhs, i) && t.lhs[i] == q + countB then [t] else []
  {
    r := index;
    var s := {};
    for i := 0 to |t.lhs|
      invariant |r| == |index| && s == set k | 0 <= k < i :: t.lhs[k]
      invariant forall q: nat, k: nat :: q < |index| ==>
        RowAt(r, q, k) == RowAt(index, q, k) + if k < i && FirstAt(t.lhs, k) && t.lhs[k] == q + countB then [t] else []
    {
      if t.lhs[i] !in s {
        assert FirstAt(t.lhs, i);
        s := s + {t.lhs[i]};
        var q := t.lhs[i] - countB;
        r := r[q := Listing(r[q], i, t)];
      }
    }
  }

  /** Appends `t` at place `i`, lengthening the row with empty lists as needed. */
  function Listing(row: seq<seq<Transition>>, i: nat, t: Transition): (r: seq<seq<Transition>>)
    ensures |row| <= |r| && i < |r|
    ensures forall k :: 0 <= k < |r| ==>
      r[k] == (if k < |row| then row[k] else []) + if k == i then [t] else []
  {
    var long := if |row| < i + 1 then row + seq(i + 1 - |row|, _ => []) else row;
    long[i := long[i] + [t]]
  }

  lemma LeafNotIndexed(index: TransIndex, ts: seq<Transition>, t: Transition, countB: nat)
    requires IndexedByFirst(index, ts, countB) && t.lhs == []
    ensures IndexedByFirst(index, ts + [t], countB)
  {}

  lemma AddedIndexed(index: TransIndex, r: TransIndex, ts: seq<Transition>, t: Transition, countB: nat)
    requires IndexedByFirst(index, ts, countB) && |r| == |index|
    requires forall q: nat, i: nat :: q < |index| ==>
      RowAt(r, q, i) == RowAt(index, q, i) + if FirstAt(t.lhs, i) && t.lhs[i] == q + countB then [t] else []
    ensures IndexedByFirst(r, ts + [t], countB)
  {}

  // ---------- the combinations laid out for one transition ----------

  lemma ColumnsLive(st: Entries, processed: Store, trans: seq<seq<Addr>>, addr: Addr, lhs: seq<nat>, i: nat)
    requires Sound(st, processed) && NoEmptyBucket(processed) && addr in st && Columns(trans, processed, addr, lhs, i)
    ensures Live(st, trans) && Positions(trans, Zeros(|lhs|))
  {
    forall j, k | 0 <= j < |trans| && 0 <= k < |trans[j]|
      ensures trans[j][k] in st
    {
      if j != i {
        assert Stored(processed, lhs[j], trans[j][k]);
      }
    }
  }

  /** A combination is a tuple of processed elements with the fixed macro-state in its place. */
  lemma CombinationIsTuple(st: Entries, processed: Store, trans: seq<seq<Addr>>, addr: Addr, t: Transition, i: nat,
                           p: seq<nat>)
    requires Sound(st, processed) && addr in st && Columns(trans, processed, addr, t.lhs, i) && Live(st, trans)
    requires i < |t.lhs| && Stored(processed, t.lhs[i], addr) && Positions(trans, p)
    ensures TupleFrom(Elements(st, processed), t, Keys(st, trans, p)) && Keys(st, trans, p)[i] == st[addr].key
  {
    forall j | 0 <= j < |p|
      ensures (t.lhs[j], Keys(st, trans, p)[j]) in Elements(st, processed)
    {
      assert Stored(processed, t.lhs[j], trans[j][p[j]]);
    }
  }

  /** Every tuple of processed elements with the fixed macro-state in its place is a combination. */
  lemma {:induction false} TupleIsCombination(st: Entries, processed: Store, trans: seq<seq<Addr>>, addr: Addr,
                                              t: Transition, i: nat, tuple: seq<set<nat>>, n: nat) returns (p: seq<nat>)
    requires Sound(st, processed) && addr in st && Columns(trans, processed, addr, t.lhs, i) && Live(st, trans)
    requires TupleFrom(Elements(st, processed), t, tuple) && i < |tuple| && tuple[i] == st[addr].key && n <= |tuple|
    ensures |p| == n && forall j :: 0 <= j < n ==> p[j] < |trans[j]| && st[trans[j][p[j]]].key == tuple[j]
    decreases n
  {
    if n == 0 {
      p := [];
    } else {
      var rest := TupleIsCombination(st, processed, trans, addr, t, i, tuple, n - 1);
      var j := n - 1;
      var k: nat := 0;
      if j != i {
        assert (t.lhs[j], tuple[j]) in Elements(st, processed);
        var b :| Stored(processed, t.lhs[j], b) && st[b].key == tuple[j];
        k :| k < |trans[j]| && trans[j][k] == b;
      }
      p := rest + [k];
    }
  }

  lemma AllCombinationsMet(b: Automaton, st: Entries, processed: Store, trans: seq<seq<Addr>>, addr: Addr,
                           t: Transition, i: nat, post: seq<Element>)
    requires Sound(st, processed) && addr in st && Columns(trans, processed, addr, t.lhs, i) && Live(st, trans)
    requires MetBelow(b, st, trans, t, Total(trans), post)
    ensures Met(b, Elements(st, processed), t, i, st[addr].key, post)
  {
    forall tuple | TupleFrom(Elements(st, processed), t, tuple) && i < |tuple| && tuple[i] == st[addr].key
      ensures (t.rhs, Post(b, t.symbol, tuple)) in post
    {
      var p := TupleIsCombination(st, processed, trans, addr, t, i, tuple, |tuple|);
      assert Positions(trans, p) && Keys(st, trans, p) == tuple && Rank(trans, p) < Total(trans);
    }
  }

  /** The combinations ranked below `n` have been dealt with. */
  ghost predicate MetBelow(b: Automaton, st: Entries, trans: seq<seq<Addr>>, t: Transition, n: nat, post: seq<Element>)
    requires Live(st, trans)
  {
    forall p :: Positions(trans, p) && Rank(trans, p) < n ==> (t.rhs, Post(b, t.symbol, Keys(st, trans, p))) in post
  }

  lemma MeetNext(b: Automaton, st: Entries, trans: seq<seq<Addr>>, t: Transition, cur: seq<nat>, post: seq<Element>)
    requires Live(st, trans) && Positions(trans, cur) && MetBelow(b, st, trans, t, Rank(trans, cur), post)
    ensures MetBelow(b, st, trans, t, Rank(trans, cur) + 1, post + [(t.rhs, Post(b, t.symbol, Keys(st, trans, cur)))])
  {
    var post' := post + [(t.rhs, Post(b, t.symbol, Keys(st, trans, cur)))];
    forall p | Positions(trans, p) && Rank(trans, p) < Rank(trans, cur) + 1
      ensures (t.rhs, Post(b, t.symbol, Keys(st, trans, p))) in post'
    {
      if Rank(trans, p) == Rank(trans, cur) {
        RankInjective(trans, p, cur);
      }
    }
  }

  class AntichainExt {
    const c: Automaton
    const countB: nat
    const cSize: nat
    ghost const a: Automaton
    ghost const b: Automaton
    const ac: Antichain.Antichain
    var aTransIndex: TransIndex
    var aLeaves: seq<Transition>
    var bTrans: map<nat, seq<Transition>>
    var bLeaves: map<nat, seq<Transition>>

    ghost predicate Sorted()
      reads this
    {
      && |aTransIndex| == cSize - countB
      && IndexedByFirst(aTransIndex, a.transitions, countB)
      && (forall t :: t in aLeaves <==> t in a.transitions && t.lhs == [])
      && FoundBy(bTrans, b.transitions, false)
      && FoundBy(bLeaves, b.transitions, true)
      && (forall s :: s in bLeaves ==> bLeaves[s] != [])
    }

    ghost predicate Fit()
      reads this
    {
      && Split(a, b, countB, cSize) && Ranked(a, b) && Identity(ac.rel, cSize)
      && c.finals == a.finals + b.finals
    }

    /** Adds a state to a macro-state unless something there simulates it; what it simulates goes. */
    method SimInsert(s: set<nat>, isAccepting: bool, rhs: nat) returns (s': set<nat>, isAccepting': bool)
      requires rhs < |ac.rel|
      ensures s' ==
        if exists i :: i in s && Holds(ac.rel, rhs, i) then s else (set i | i in s && !Holds(ac.rel, i, rhs)) + {rhs}
      ensures isAccepting' ==
        (isAccepting && ((exists i :: i in s && Holds(ac.rel, rhs, i)) || !(rhs in c.finals)))
    {
      if exists i :: i in s && Holds(ac.rel, rhs, i) {
        return s, isAccepting;
      }
      s' := (set i | i in s && !Holds(ac.rel, i, rhs)) + {rhs};
      isAccepting' := isAccepting && !(rhs in c.finals);
    }

    constructor (c: Automaton, countB: nat, cSize: nat, rel: Relation)
      requires Identity(rel, cSize) && Preorder(rel) && countB <= cSize
      ensures this.c == c && this.countB == countB && this.cSize == cSize && ac.rel == rel
      ensures a == RenamedUnion.LeftPart(c, countB) && b == RenamedUnion.RightPart(c, countB)
      ensures ac.Valid() && ac.processed == map[] && ac.next == map[]
      ensures aTransIndex == seq(cSize - countB, _ => []) && aLeaves == [] && bTrans == map[] && bLeaves == map[]
      ensures fresh(ac) && fresh(ac.stateCache) && fresh(ac.cachedLte)
    {
      this.c, this.countB, this.cSize := c, countB, cSize;
      a, b := RenamedUnion.LeftPart(c, countB), RenamedUnion.RightPart(c, countB);
      ac := new Antichain.Antichain(rel);
      aTransIndex := seq(cSize - countB, _ => []);
      aLeaves, bTrans, bLeaves := [], map[], map[];
    }

    /** Transitions of either part, met one by one: the left ones are listed by place, or as leaves. */
    ghost predicate SortedLeft(ts: seq<Transition>)
      reads this`aTransIndex, this`aLeaves
    {
      && |aTransIndex| == cSize - countB && IndexedByFirst(aTransIndex, ts, countB)
      && forall t :: t in aLeaves <==> t in ts && t.lhs == []
    }

    /** The right ones are found by their labels. */
    ghost predicate SortedRight(ts: seq<Transition>)
      reads this`bTrans, this`bLeaves
    {
      && FoundBy(bTrans, ts, false) && FoundBy(bLeaves, ts, true)
      && forall s :: s in bLeaves ==> bLeaves[s] != []
    }

    /** Sorts the transitions of the union into those of either automaton, and into leaves and others. */
    method SortTransitions()
      requires Split(a, b, countB, cSize)
      requires a == RenamedUnion.LeftPart(c, countB) && b == RenamedUnion.RightPart(c, countB)
      requires aTransIndex == seq(cSize - countB, _ => []) && aLeaves == [] && bTrans == map[] && bLeaves == map[]
      modifies this`aTransIndex, this`aLeaves, this`bTrans, this`bLeaves
      ensures Sorted()
    {
      hide SortedLeft, SortedRight, IndexedByFirst, FoundBy;
      assert c.transitions[..0] == [];
      NoneSorted();
      for i := 0 to |c.transitions|
        invariant SortedLeft(RenamedUnion.PartOf(c.transitions[..i], countB, true))
        invariant SortedRight(RenamedUnion.PartOf(c.transitions[..i], countB, false))
      {
        var t := c.transitions[i];
        RenamedUnion.PartNext(c.transitions, countB, true, i);
        RenamedUnion.PartNext(c.transitions, countB, false, i);
        if t.rhs >= countB {
          RenamedUnion.PartMembers(c.transitions, countB, true, t);
          AddLeft(t, RenamedUnion.PartOf(c.transitions[..i], countB, true));
        } else {
          AddRight(t, RenamedUnion.PartOf(c.transitions[..i], countB, false));
        }
      }
      assert c.transitions[..|c.transitions|] == c.transitions;
      AllSorted();
    }

    lemma NoneSorted()
      requires countB <= cSize && aTransIndex == seq(cSize - countB, _ => []) && aLeaves == []
      requires bTrans == map[] && bLeaves == map[]
      ensures SortedLeft(RenamedUnion.PartOf([], countB, true)) && SortedRight(RenamedUnion.PartOf([], countB, false))
    {}

    lemma AllSorted()
      requires SortedLeft(a.transitions) && SortedRight(b.transitions)
      ensures Sorted()
    {}

    method AddLeft(t: Transition, ghost ts: seq<Transition>)
      requires SortedLeft(ts) && forall i :: 0 <= i < |t.lhs| ==> countB <= t.lhs[i] < cSize
      modifies this`aTransIndex, this`aLeaves
      ensures SortedLeft(ts + [t])
    {
      if t.lhs == [] {
        LeafNotIndexed(aTransIndex, ts, t, countB);
        aLeaves := aLeaves + [t];
      } else {
        ghost var before := aTransIndex;
        aTransIndex := AAddTransition(aTransIndex, t, countB);
        AddedIndexed(before, aTransIndex, ts, t, countB);
      }
    }

    method AddRight(t: Transition, ghost ts: seq<Transition>)
      requires SortedRight(ts)
      modifies this`bTrans, this`bLeaves
      ensures SortedRight(ts + [t])
    {
      if t.lhs == [] {
        bLeaves := Appended(bLeaves, t);
      } else {
        bTrans := Appended(bTrans, t);
      }
    }

    /** The macro-state that `range` leads to from the current combination, and whether only `a` accepts there. */
    method NewElement(response: ResponseExt, range: seq<Transition>, t: Transition)
      returns (s: set<nat>, isAccepting: bool)
      requires Fit() && response.Valid() && Live(ac.stateCache.store, response.trans)
      requires t in a.transitions && |response.trans| == |t.lhs|
      requires forall k :: k in range ==> k in b.transitions && k.symbol == t.symbol
      ensures s == FiredStates(range, t.symbol, Keys(ac.stateCache.store, response.trans, response.current))
      ensures isAccepting <==> t.rhs in a.finals && !exists q :: q in s && q in b.finals
    {
      s, isAccepting := {}, t.rhs in c.finals;
      ghost var keys := Keys(ac.stateCache.store, response.trans, response.current);
      for i := 0 to |range|
        invariant s == FiredStates(range[..i], t.symbol, keys)
        invariant isAccepting <==> t.rhs in a.finals && !exists q :: q in s && q in b.finals
      {
        FiredAppend(range[..i], range[i], t.symbol, keys);
        assert range[..i + 1] == range[..i] + [range[i]];
        var matches := response.Match(ac.stateCache.store, range[i]);
        if matches {
          s, isAccepting := SimInsert(s, isAccepting, range[i].rhs);
        }
      }
      assert range[..|range|] == range;
    }

    /** The element that the current combination leads to; it is an error if that element is not harmless. */
    method MeetCombination(response: ResponseExt, ghost addr: Addr, t: Transition, ghost i: nat)
      returns (ok: bool, e: Element)
      requires Sorted() && Fit() && t in a.transitions && response.Valid()
      requires Laid(ac.stateCache.store, ac.processed, response.trans, addr, t, i)
      ensures e == (t.rhs, Post(b, t.symbol, Keys(ac.stateCache.store, response.trans, response.current)))
      ensures SuccessorOf(a, b, ac.Processed(), e)
      ensures ok <==> Harmless(a, b, e)
    {
      ghost var st, trans := ac.stateCache.store, response.trans;
      CombinationIsTuple(st, ac.processed, trans, addr, t, i, response.current);
      var range := Found(bTrans, t.symbol);
      PostOfFound(b, t.symbol, range, Keys(st, trans, response.current));
      var s, isAccepting := NewElement(response, range, t);
      e := (t.rhs, s);
      ok := !isAccepting && s != {};
    }

    /** Meets the laid out combinations one after another. */
    method MeetCombinations(response: ResponseExt, ghost addr: Addr, t: Transition, ghost i: nat, post: seq<Element>)
      returns (ok: bool, post': seq<Element>)
      requires Sorted() && Fit() && t in a.transitions && response.Valid()
      requires Laid(ac.stateCache.store, ac.processed, response.trans, addr, t, i)
      requires Rank(response.trans, response.current) == 0 && FirstAt(t.lhs, i)
      modifies response
      ensures Grown(a, b, ac.Processed(), post, post')
      ensures ok ==> Met(b, ac.Processed(), t, i, ac.stateCache.store[addr].key, post')
      ensures !ok ==> Harm(a, b, ac.Processed(), t.lhs[i], ac.stateCache.store[addr].key)
    {
      ghost var st, trans := ac.stateCache.store, response.trans;
      post' := post;
      var more := true;
      while more
        invariant response.Valid() && response.trans == trans && Grown(a, b, ac.Processed(), post, post')
        invariant MetBelow(b, st, trans, t, if more then Rank(trans, response.current) else Total(trans), post')
        decreases if more then Total(trans) - Rank(trans, response.current) else 0
      {
        var e;
        ok, e := MeetCombination(response, addr, t, i);
        if !ok {
          CombinationIsTuple(st, ac.processed, trans, addr, t, i, response.current);
          assert HarmfulTuple(a, b, ac.Processed(), t.lhs[i], st[addr].key, t, i, Keys(st, trans, response.current));
          return;
        }
        // a macro-state of `b` never simulates a state of `a`
        if !exists q :: q in e.1 && Holds(ac.rel, e.0, q) {
          MeetNext(b, st, trans, t, response.current, post');
          post' := post' + [e];
        }
        more := response.Next();
      }
      AllCombinationsMet(b, st, ac.processed, trans, addr, t, i, post');
      ok := true;
    }

    /** Meets all combinations of processed elements that `t` takes with the given element at place `i`. */
    method MeetTransition(response: ResponseExt, addr: Addr, t: Transition, i: nat, post: seq<Element>)
      returns (ok: bool, post': seq<Element>)
      requires Sorted() && Fit() && ac.Valid() && t in a.transitions && FirstAt(t.lhs, i) &&
        Stored(ac.processed, t.lhs[i], addr)
      modifies response
      ensures Grown(a, b, ac.Processed(), post, post')
      ensures ok ==> addr in ac.stateCache.store && Met(b, ac.Processed(), t, i, ac.stateCache.store[addr].key, post')
      ensures !ok ==> addr in ac.stateCache.store && Harm(a, b, ac.Processed(), t.lhs[i], ac.stateCache.store[addr].key)
    {
      var found := response.Get(ac, addr, t, i);
      if !found {
        NothingToMeet(b, ac.stateCache.store, ac.processed, t, i, ac.stateCache.store[addr].key, post);
        return true, post;
      }
      ColumnsLive(ac.stateCache.store, ac.processed, response.trans, addr, t.lhs, i);
      RankOfZeros(response.trans);
      if t.symbol !in bTrans {
        ghost var keys := Keys(ac.stateCache.store, response.trans, response.current);
        CombinationIsTuple(ac.stateCache.store, ac.processed, response.trans, addr, t, i, response.current);
        assert Found(bTrans, t.symbol) == [];
        NoRuleNoState(b, t.symbol, keys);
        assert HarmfulTuple(a, b, ac.Processed(), t.lhs[i], ac.stateCache.store[addr].key, t, i, keys);
        return false, post;
      }
      ok, post' := MeetCombinations(response, addr, t, i, post);
    }

    /** Meets the combinations of the transitions that list `q` first at place `i`. */
    method MeetRow(response: ResponseExt, row: seq<Transition>, i: nat, q: nat, addr: Addr, post: seq<Element>)
      returns (ok: bool, post': seq<Element>)
      requires Sorted() && Fit() && ac.Valid() && Stored(ac.processed, q, addr) && addr in ac.stateCache.store
      requires forall t :: t in row ==> t in a.transitions && FirstAt(t.lhs, i) && t.lhs[i] == q
      requires Grown(a, b, ac.Processed(), [], post)
      modifies response
      ensures Grown(a, b, ac.Processed(), [], post') && post <= post'
      ensures ok ==> MetRow(b, ac.Processed(), row, |row|, i, ac.stateCache.store[addr].key, post')
      ensures !ok ==> Harm(a, b, ac.Processed(), q, ac.stateCache.store[addr].key)
    {
      ghost var ps, s := ac.Processed(), ac.stateCache.store[addr].key;
      post' := post;
      for j := 0 to |row|
        invariant Grown(a, b, ps, [], post') && post <= post'
        invariant MetRow(b, ps, row, j, i, s, post')
      {
        assert row[j] in row;
        ghost var before := post';
        ok, post' := MeetTransition(response, addr, row[j], i, post');
        if !ok {
          return;
        }
        MetRowStep(b, ps, row, j, i, s, before, post');
      }
      ok := true;
    }

    /** Meets, for every transition with `q` among its children, all combinations with the given element there. */
    method MeetElement(response: ResponseExt, q: nat, addr: Addr) returns (ok: bool, post: seq<Element>)
      requires Sorted() && Fit() && ac.Valid() && countB <= q < cSize && Stored(ac.processed, q, addr)
      modifies response
      ensures Grown(a, b, ac.Processed(), [], post)
      ensures addr in ac.stateCache.store
      ensures ok ==> MetAll(a, b, ac.Processed(), a.transitions, q, ac.stateCache.store[addr].key, post)
      ensures !ok ==> Harm(a, b, ac.Processed(), q, ac.stateCache.store[addr].key)
    {
      ghost var ps, s := ac.Processed(), ac.stateCache.store[addr].key;
      post := [];
      var rows := aTransIndex[q - countB];
      for i := 0 to |rows|
        invariant Grown(a, b, ps, [], post)
        invariant MetRows(b, ps, rows, i, s, post)
      {
        assert RowAt(aTransIndex, q - countB, i) == rows[i];
        ghost var before := post;
        ok, post := MeetRow(response, rows[i], i, q, addr, post);
        if !ok {
          return;
        }
        MetRowsStep(b, ps, rows, i, s, before, post);
      }
      RowsMeetAll(a, b, ps, aTransIndex, countB, q, s, post);
      ok := true;
    }

    /** The macro-state of the leaves in `range`, and whether only `a` accepts there. */
    method LeafElement(range: seq<Transition>, t: Transition) returns (s: set<nat>, isAccepting: bool)
      requires Fit() && t in a.transitions
      requires forall k :: k in range ==> k in b.transitions && k.symbol == t.symbol && k.lhs == []
      ensures s == FiredStates(range, t.symbol, [])
      ensures isAccepting <==> t.rhs in a.finals && !exists q :: q in s && q in b.finals
    {
      s, isAccepting := {}, t.rhs in c.finals;
      for i := 0 to |range|
        invariant s == FiredStates(range[..i], t.symbol, [])
        invariant isAccepting <==> t.rhs in a.finals && !exists q :: q in s && q in b.finals
      {
        FiredAppend(range[..i], range[i], t.symbol, []);
        assert range[..i + 1] == range[..i] + [range[i]];
        s, isAccepting := SimInsert(s, isAccepting, range[i].rhs);
      }
      assert range[..|range|] == range;
    }

    /** The elements that the leaves of `a` lead to. */
    method MeetLeaves() returns (ok: bool, post: seq<Element>)
      requires Sorted() && Fit()
      ensures Grown(a, b, {}, [], post)
      ensures ok ==> forall t :: t in a.transitions && t.lhs == [] ==> (t.rhs, Post(b, t.symbol, [])) in post
      ensures !ok ==> LeafRefutes(a, b)
    {
      post := [];
      for i := 0 to |aLeaves|
        invariant Grown(a, b, {}, [], post)
        invariant forall t :: t in aLeaves[..i] ==> (t.rhs, Post(b, t.symbol, [])) in post
      {
        var t := aLeaves[i];
        assert aLeaves[..i + 1] == aLeaves[..i] + [t] && t in aLeaves;
        var range := Found(bLeaves, t.symbol);
        ghost var e := (t.rhs, Post(b, t.symbol, []));
        assert TupleFrom({}, t, []) && SuccessorOf(a, b, {}, e);
        PostOfFound(b, t.symbol, range, []);
        if t.symbol !in bLeaves {
          return false, post;
        }
        var newEl, isAccepting := LeafElement(range, t);
        assert range[0] in range && range[0].rhs in newEl;
        if isAccepting {
          return false, post;
        }
        // a macro-state of `b` never simulates a state of `a`
        if !exists q :: q in newEl && Holds(ac.rel, t.rhs, q) {
          post := post + [(t.rhs, newEl)];
        }
      }
      assert aLeaves[..|aLeaves|] == aLeaves;
      ok := true;
    }

    ghost function Now(): Moment
      reads ac, ac.stateCache
    {
      Moment(ac.Processed(), ac.Pending())
    }

    /** Picks a pending element, files it and meets its successors; `ok` turns false when one refutes inclusion. */
    method Pick(response: ResponseExt) returns (ok: bool, ghost e: Element, post: seq<Element>)
      requires Sorted() && Fit() && ac.Valid() && ac.Pending() != {}
      requires forall d :: d in ac.Pending() ==> countB <= d.0 < cSize
      modifies response, ac
      ensures ac.Valid() && Lowest(old(Now()), e)
      ensures Now() == Moment(old(ac.Processed()) + {e}, old(ac.Pending()) - {e})
      ensures Grown(a, b, ac.Processed(), [], post)
      ensures ok ==> MetAll(a, b, ac.Processed(), a.transitions, e.0, e.1, post)
      ensures !ok ==> Harm(a, b, ac.Processed(), e.0, e.1)
      ensures forall d :: d in post ==> InRange(ac.rel, d)
    {
      hide Grown, MetAll, References, Elements, Minimal, Preorder, Coherent, Harm;
      var found, q, addr := ac.NextElement();
      e := Item(ac.stateCache.store, q, addr);
      ok, post := MeetElement(response, q, addr);
      GrownInRange(a, b, countB, cSize, ac.rel, ac.Processed(), post);
    }

    /** `ms` is a search up to what is stored now. */
    ghost predicate Searching(ms: seq<Moment>)
      reads this, ac, ac.stateCache, ac.cachedLte
    {
      Sorted() && Fit() && ac.Valid() && ms != [] && Search(a, b, ac.rel, ms) && ms[|ms| - 1] == Now()
    }

    /** Files one pending element and offers its successors: the search goes on, or ends with a refutation. */
    method RunRound(response: ResponseExt, ghost ms: seq<Moment>) returns (ok: bool)
      requires Searching(ms) && ac.Pending() != {}
      modifies response, ac, ac.stateCache, ac.cachedLte
      ensures !ok ==> Refutes(a, b, ms[|ms| - 1])
      ensures ok ==> Searching(ms + [Now()])
      ensures ok ==> Shrunk(cSize, old(ac.Processed()), old(ac.Pending()), ac.Processed(), ac.Pending())
    {
      hide Search, Shrunk, Grown, MetAll, Offered, Harm, Identity, Split, Ranked, FoundBy, IndexedByFirst, References,
        Minimal, Coherent, Preorder, NoEmptyBucket, Reflexive, Elements;
      ghost var m := Now();
      SearchStates(a, b, countB, cSize, ac.rel, ms);
      var post;
      ghost var e;
      ok, e, post := Pick(response);
      if ok {
        ac.Update(post);
        assert Turns(a, b, ac.rel, m, e, post, Now());
        SearchMore(a, b, ac.rel, ms, Now());
        TurnShrinks(a, b, ac.rel, cSize, m, e, post, Now());
      }
    }

    /** Fills the store with what the leaves lead to. */
    method Start() returns (ok: bool)
      requires Sorted() && Fit() && ac.Valid() && ac.processed == map[] && ac.next == map[]
      modifies ac, ac.stateCache, ac.cachedLte
      ensures !ok ==> LeafRefutes(a, b)
      ensures ok ==> Searching([Now()])
    {
      var post;
      ok, post := MeetLeaves();
      if ok {
        GrownInRange(a, b, countB, cSize, ac.rel, {}, post);
        assert ac.Processed() == {} && ac.Pending() == {};
        ac.Update(post);
        assert StartsWith(a, b, ac.rel, Now(), post);
        SearchStarts(a, b, ac.rel, Now(), post);
      }
    }

    /** Goes on with the search until nothing is pending or a round refutes inclusion. */
    method Continue(response: ResponseExt, ghost start: seq<Moment>) returns (r: bool, ghost ms: seq<Moment>)
      requires Searching(start)
      modifies response, ac, ac.stateCache, ac.cachedLte
      ensures ms != [] && Search(a, b, ac.rel, ms)
      ensures if r then ms[|ms| - 1].pending == {} else Refutes(a, b, ms[|ms| - 1])
    {
      hide Search, Minimal, Refutes, References, Coherent, Preorder, Uncovered, NoEmptyBucket, Identity, Split, Ranked,
        FoundBy, IndexedByFirst, Reflexive, Elements;
      var more := ac.HasPending();
      ms := start;
      while more
        invariant Searching(ms)
        invariant more <==> ac.Pending() != {}
        decreases Uncovered(cSize, ac.Processed() + ac.Pending()), |ac.Pending()|
      {
        r := RunRound(response, ms);
        if !r {
          return;
        }
        ms := ms + [Now()];
        more := ac.HasPending();
      }
      r := true;
    }

    /** The whole check, on sorted transitions and an empty store. */
    method Run() returns (r: bool)
      requires Sorted() && Fit() && ac.Valid() && ac.processed == map[] && ac.next == map[]
      requires ac.rel == IdentityRelation(cSize)
      modifies ac, ac.stateCache, ac.cachedLte
      ensures Answers(a, b, cSize, r)
    {
      hide Search, LeafRefutes, Refutes;
      r := Start();
      if r {
        ghost var ms;
        var response := new ResponseExt();
        r, ms := Continue(response, [Now()]);
      }
    }
  }

  /** The check on a union of two automata: the states of the right one are those below `countB`. */
  method CheckUnion(c: Automaton, countB: nat, cSize: nat) returns (r: bool)
    requires
      var a, b := RenamedUnion.LeftPart(c, countB), RenamedUnion.RightPart(c, countB);
      Split(a, b, countB, cSize) && Ranked(a, b)
    ensures
      var a, b := RenamedUnion.LeftPart(c, countB), RenamedUnion.RightPart(c, countB);
      && Answers(a, b, cSize, r)
      && (r ==> exists age, es :: Saturated(a, b, age, es))
      && (!r ==> exists t :: Distinguishes(a, b, t))
      && (LinearLhs(a) ==> (r <==> Included(a, b) && Tracked(a, b)))
      && (LinearLhs(a) && Trim(a) ==> (r <==> Included(a, b)))
  {
    hide Answers, Saturated, Distinguishes;
    var rel := IdentityRelation(cSize);
    IdentityOrder(rel, cSize);
    var ext := new AntichainExt(c, countB, cSize, rel);
    ext.SortTransitions();
    r := ext.Run();
    AnswerRests(ext.a, ext.b, countB, cSize, r);
    VerdictMeaning(ext.a, ext.b, r);
  }

  /** The check as it is called: whether `b` can label every tree that `a` can label.  The copy of `a` in the union has
      no final states, so what either automaton accepts makes no difference. */
  method Subseteq(a: Automaton, b: Automaton) returns (r: bool)
    requires Ranked(a, b)
    ensures Verdict(a, b, false, r)
    ensures LinearLhs(a) ==> (r <==> Tracked(a, b))
    ensures !r ==> exists t :: Reached(a, t) != {} && Reached(b, t) == {}
    ensures Trim(a) && Included(a, b) ==> r
  {
    hide Answers, Verdict, Trim, Tracked, Included;
    var c, countB;
    ghost var f, g, fs, gs;
    c, countB, f, g, fs, gs := RenamedUnion.RenamedUnion(b, a, 0);
    var cSize := |RenamedUnion.States(c)|;
    UnionFit(a, b, c, f, fs, g, gs, false);
    r := CheckUnion(c, countB, cSize);
    AnsweredOn(a, b, c, f, fs, g, gs, false, r);
    VerdictAsWritten(a, b, r);
  }

  ghost predicate MetRow(b: Automaton, ps: set<Element>, row: seq<Transition>, n: nat, i: nat, s: set<nat>,
                         post: seq<Element>) {
    forall k: nat :: k < n && k < |row| ==> Met(b, ps, row[k], i, s, post)
  }

  ghost predicate MetRows(b: Automaton, ps: set<Element>, rows: seq<seq<Transition>>, n: nat, s: set<nat>,
                          post: seq<Element>) {
    forall i: nat :: i < n && i < |rows| ==> MetRow(b, ps, rows[i], |rows[i]|, i, s, post)
  }

  lemma MetRowStep(b: Automaton, ps: set<Element>, row: seq<Transition>, n: nat, i: nat, s: set<nat>,
                   post: seq<Element>, post': seq<Element>)
    requires post <= post' && MetRow(b, ps, row, n, i, s, post) && n < |row| && Met(b, ps, row[n], i, s, post')
    ensures MetRow(b, ps, row, n + 1, i, s, post')
  {
    forall k: nat | k < n
      ensures Met(b, ps, row[k], i, s, post')
    {
      MetStays(b, ps, row[k], i, s, post, post');
    }
  }

  lemma MetRowsStep(b: Automaton, ps: set<Element>, rows: seq<seq<Transition>>, n: nat, s: set<nat>,
                    post: seq<Element>, post': seq<Element>)
    requires post <= post' && MetRows(b, ps, rows, n, s, post) && n < |rows| &&
      MetRow(b, ps, rows[n], |rows[n]|, n, s, post')
    ensures MetRows(b, ps, rows, n + 1, s, post')
  {
    forall i: nat, k: nat | i < n && k < |rows[i]|
      ensures Met(b, ps, rows[i][k], i, s, post')
    {
      assert MetRow(b, ps, rows[i], |rows[i]|, i, s, post);
      MetStays(b, ps, rows[i][k], i, s, post, post');
    }
  }

  lemma MetStays(b: Automaton, ps: set<Element>, t: Transition, i: nat, s: set<nat>, post: seq<Element>,
                 post': seq<Element>)
    requires post <= post' && Met(b, ps, t, i, s, post)
    ensures Met(b, ps, t, i, s, post')
  {
    forall e | e in post
      ensures e in post'
    {
      var k :| 0 <= k < |post| && post[k] == e;
      assert post'[k] == e;
    }
  }

  lemma RowsMeetAll(a: Automaton, b: Automaton, ps: set<Element>, index: TransIndex, countB: nat, q: nat, s: set<nat>,
                    post: seq<Element>)
    requires IndexedByFirst(index, a.transitions, countB) && countB <= q < countB + |index|
    requires MetRows(b, ps, index[q - countB], |index[q - countB]|, s, post)
    ensures MetAll(a, b, ps, a.transitions, q, s, post)
  {
    forall t, i: nat | t in a.transitions && FirstAt(t.lhs, i) && t.lhs[i] == q
      ensures Met(b, ps, t, i, s, post)
    {
      assert t in RowAt(index, q - countB, i);
      assert MetRow(b, ps, index[q - countB][i], |index[q - countB][i]|, i, s, post);
      var k :| 0 <= k < |index[q - countB][i]| && index[q - countB][i][k] == t;
    }
  }

  ghost predicate Laid(st: Entries, processed: Store, trans: seq<seq<Addr>>, addr: Addr, t: Transition, i: nat) {
    && Sound(st, processed) && addr in st && i < |t.lhs| && Stored(processed, t.lhs[i], addr)
    && Columns(trans, processed, addr, t.lhs, i) && Live(st, trans)
  }

  lemma NoRuleNoState(b: Automaton, symbol: nat, keys: seq<set<nat>>)
    requires keys != [] && forall t :: t in b.transitions && t.lhs != [] ==> t.symbol != symbol
    ensures Post(b, symbol, keys) == {}
  {}

  lemma NothingToMeet(b: Automaton, st: Entries, processed: Store, t: Transition, i: nat, s: set<nat>,
                      post: seq<Element>)
    requires exists j :: 0 <= j < |t.lhs| && t.lhs[j] !in processed
    ensures Met(b, Elements(st, processed), t, i, s, post)
  {
    var j :| 0 <= j < |t.lhs| && t.lhs[j] !in processed;
    forall tuple: seq<set<nat>> | |tuple| == |t.lhs|
      ensures (t.lhs[j], tuple[j]) !in Elements(st, processed)
    {}
  }

  /** The listed transitions of a label are all that count for its successors over a nonempty tuple. */
  lemma PostOfFound(b: Automaton, symbol: nat, range: seq<Transition>, keys: seq<set<nat>>)
    requires forall t :: t in b.transitions && t.symbol == symbol && |t.lhs| == |keys| ==> t in range
    requires forall t :: t in range ==> t in b.transitions
    ensures Post(b, symbol, keys) == FiredStates(range, symbol, keys)
  {}

  ghost function FiredStates(range: seq<Transition>, symbol: nat, keys: seq<set<nat>>): set<nat> {
    set t | t in range && Fires(t, symbol, keys) :: t.rhs
  }

  lemma FiredAppend(range: seq<Transition>, t: Transition, symbol: nat, keys: seq<set<nat>>)
    ensures FiredStates(range + [t], symbol, keys)
         == FiredStates(range, symbol, keys) + if Fires(t, symbol, keys) then {t.rhs} else {}
  {}
}
