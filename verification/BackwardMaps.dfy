/** Backward maps: for each root, which selectors lead back to it from where. They stay the inverse
    of the signatures. */
module BackwardMaps {
  import opened RootGraph
  import opened Signatures

  // ---------- what is to be kept ----------

  /** An entry of `sig` says that selector `sel` of `x` leads back. */
  ghost predicate Leads(sig: CutpointSignature, x: nat, sel: Word) {
    exists i :: 0 <= i < |sig| && sig[i].root == x && sig[i].bwdSelector == sel
  }

  /** The backward map of `x` has `p` for `sel`. */
  ghost predicate Back(data: ConnectionData, x: nat, sel: Word, p: nat)
    requires x < |data|
  {
    sel in data[x].bwdMap && data[x].bwdMap[sel] == p
  }

  /** In the forest, backward maps are the inverse of the signatures of the valid roots. */
  ghost predicate Exact(data: ConnectionData, forest: set<nat>) {
    && (forall x :: x in forest ==> x < |data|)
    && (forall x :: x in forest ==> StaysIn(data[x], forest))
    && forall x, sel, p {:trigger Back(data, x, sel, p)} :: x in forest && p in forest ==>
         (Back(data, x, sel, p) <==> data[p].valid && sel != NONE && Leads(data[p].signature, x, sel))
  }

  ghost predicate StaysIn(info: RootInfo, forest: set<nat>) {
    && (forall sel :: sel in info.bwdMap ==> info.bwdMap[sel] in forest)
    && (info.valid ==> TargetsIn(info.signature, forest))
  }

  ghost predicate TargetsIn(sig: CutpointSignature, forest: set<nat>) {
    forall i :: 0 <= i < |sig| ==> sig[i].root in forest
  }

  /** What the traversal of the root graph asks for. */
  lemma ExactIsCoherent(data: ConnectionData, forest: set<nat>)
    requires Exact(data, forest) && forall x :: x in forest ==> data[x].valid
    ensures Coherent(data, forest)
  {
    forall x {:trigger Near(data, x)} | x in forest && x < |data|
      ensures Near(data, x) <= forest
    {
      assert StaysIn(data[x], forest);
    }
    forall x, p {:trigger p in Pred(data, x)} | x in forest && p in forest && p in Pred(data, x)
      ensures x in Succ(data, p)
    {
      var sel :| sel in data[x].bwdMap && data[x].bwdMap[sel] == p;
      assert Back(data, x, sel, p);
      var i :| 0 <= i < |data[p].signature| && data[p].signature[i].root == x &&
        data[p].signature[i].bwdSelector == sel;
    }
  }

  // ---------- entering and leaving ----------

  /** The selectors of `x` that the first `i` entries of `sig` name. */
  ghost function Named(sig: CutpointSignature, i: nat, x: nat): set<Word>
    requires i <= |sig|
  {
    set j | 0 <= j < i && sig[j].root == x && sig[j].bwdSelector != NONE :: sig[j].bwdSelector
  }

  lemma NamedMore(sig: CutpointSignature, i: nat, x: nat)
    requires i < |sig|
    ensures Named(sig, i + 1, x) ==
            Named(sig, i, x) + if sig[i].root == x && sig[i].bwdSelector != NONE then {sig[i].bwdSelector} else {}
  {
  }

  lemma NamedAll(sig: CutpointSignature, x: nat, sel: Word)
    ensures sel in Named(sig, |sig|, x) <==> sel != NONE && Leads(sig, x, sel)
  {
  }

  lemma NamedOnce(sig: CutpointSignature, i: nat)
    requires DistinctRoots(sig) && i < |sig|
    ensures Named(sig, i, sig[i].root) == {}
  {
  }

  ghost predicate Erased(data: ConnectionData, now: ConnectionData, sig: CutpointSignature, i: nat)
    requires i <= |sig|
  {
    |now| == |data| && forall x :: 0 <= x < |data| ==>
      now[x] == data[x].(bwdMap := data[x].bwdMap - Named(sig, i, x))
  }

  function Entered(m: map<Word, nat>, sels: set<Word>, root: nat): map<Word, nat> {
    m + map sel | sel in sels :: root
  }

  ghost predicate Inserted(data: ConnectionData, now: ConnectionData, sig: CutpointSignature, i: nat, root: nat)
    requires i <= |sig|
  {
    |now| == |data| && forall x :: 0 <= x < |data| ==>
      now[x] == data[x].(bwdMap := Entered(data[x].bwdMap, Named(sig, i, x), root))
  }

  function WithBack(data: ConnectionData, t: nat, m: map<Word, nat>): ConnectionData
    requires t < |data|
  {
    data[t := data[t].(bwdMap := m)]
  }

  lemma ErasedOne(m: map<Word, nat>, sels: set<Word>, sel: Word)
    ensures m - sels - {sel} == m - (sels + {sel})
  {
  }

  lemma EnteredMore(m: map<Word, nat>, sels: set<Word>, sel: Word, root: nat)
    ensures Entered(m, sels, root)[sel := root] == Entered(m, sels + {sel}, root)
  {
  }

  lemma Unchanged(data: ConnectionData, sig: CutpointSignature, root: nat)
    ensures Erased(data, data, sig, 0) && Inserted(data, data, sig, 0, root)
  {
    forall x | 0 <= x < |data|
      ensures data[x].bwdMap - Named(sig, 0, x) == data[x].bwdMap
      ensures Entered(data[x].bwdMap, Named(sig, 0, x), root) == data[x].bwdMap
    {
    }
  }

  lemma ErasedMore(data: ConnectionData, now: ConnectionData, sig: CutpointSignature, i: nat)
    requires i < |sig| && Erased(data, now, sig, i) && sig[i].root < |data|
    ensures
      var t, sel := sig[i].root, sig[i].bwdSelector;
      Erased(data, if sel == NONE then now else WithBack(now, t, now[t].bwdMap - {sel}), sig, i + 1)
  {
    var t, sel := sig[i].root, sig[i].bwdSelector;
    var next := if sel == NONE then now else WithBack(now, t, now[t].bwdMap - {sel});
    forall x | 0 <= x < |data|
      ensures next[x] == data[x].(bwdMap := data[x].bwdMap - Named(sig, i + 1, x))
    {
      NamedMore(sig, i, x);
      ErasedOne(data[x].bwdMap, Named(sig, i, x), sel);
    }
  }

  lemma InsertedMore(data: ConnectionData, now: ConnectionData, sig: CutpointSignature, i: nat, root: nat)
    requires i < |sig| && Inserted(data, now, sig, i, root) && sig[i].root < |data|
    ensures
      var t, sel := sig[i].root, sig[i].bwdSelector;
      Inserted(data, if sel == NONE then now else WithBack(now, t, now[t].bwdMap[sel := root]), sig, i + 1, root)
  {
    var t, sel := sig[i].root, sig[i].bwdSelector;
    var next := if sel == NONE then now else WithBack(now, t, now[t].bwdMap[sel := root]);
    forall x | 0 <= x < |data|
      ensures next[x] == data[x].(bwdMap := Entered(data[x].bwdMap, Named(sig, i + 1, x), root))
    {
      NamedMore(sig, i, x);
      if sel != NONE && x == t {
        EnteredMore(data[x].bwdMap, Named(sig, i, x), sel, root);
        assert next[x] == now[x].(bwdMap := now[x].bwdMap[sel := root]);
      } else {
        assert Named(sig, i + 1, x) == Named(sig, i, x) && next[x] == now[x];
      }
    }
  }

  /** `root` is as before but for its flag. */
  function Flagged(data: ConnectionData, root: nat, valid: bool): ConnectionData
    requires root < |data|
  {
    data[root := data[root].(valid := valid)]
  }

  lemma InvalidatedExact(data: ConnectionData, now: ConnectionData, forest: set<nat>, root: nat)
    requires Exact(data, forest) && root in forest && data[root].valid
    requires Erased(data, now, data[root].signature, |data[root].signature|)
    ensures Exact(Flagged(now, root, false), forest)
    ensures forall x :: x in forest ==> forall sel ::
      sel in now[x].bwdMap <==> sel in data[x].bwdMap && data[x].bwdMap[sel] != root
  {
    var sig, end := data[root].signature, Flagged(now, root, false);
    forall x, sel | x in forest
      ensures sel in now[x].bwdMap <==> sel in data[x].bwdMap && data[x].bwdMap[sel] != root
    {
      NamedAll(sig, x, sel);
      assert Back(data, x, sel, root) <==> sel != NONE && Leads(sig, x, sel);
    }
    forall x, sel, p {:trigger Back(end, x, sel, p)} | x in forest && p in forest
      ensures Back(end, x, sel, p) <==> end[p].valid && sel != NONE && Leads(end[p].signature, x, sel)
    {
      assert Back(data, x, sel, p) <==> data[p].valid && sel != NONE && Leads(data[p].signature, x, sel);
    }
    forall x | x in forest
      ensures StaysIn(end[x], forest)
    {
      assert StaysIn(data[x], forest);
    }
  }

  /** No selector that `sig` names is taken, and its targets are in the forest. */
  ghost predicate Free(data: ConnectionData, forest: set<nat>, sig: CutpointSignature)
    requires forall x :: x in forest ==> x < |data|
  {
    forall i :: 0 <= i < |sig| ==> sig[i].root in forest && sig[i].bwdSelector !in data[sig[i].root].bwdMap
  }

  lemma UpdatedExact(data: ConnectionData, now: ConnectionData, forest: set<nat>, root: nat)
    requires Exact(data, forest) && root in forest && !data[root].valid
    requires Free(data, forest, data[root].signature)
    requires Inserted(data, now, data[root].signature, |data[root].signature|, root)
    ensures Exact(Flagged(now, root, true), forest)
  {
    var sig, end := data[root].signature, Flagged(now, root, true);
    forall x, sel, p {:trigger Back(end, x, sel, p)} | x in forest && p in forest
      ensures Back(end, x, sel, p) <==> end[p].valid && sel != NONE && Leads(end[p].signature, x, sel)
    {
      NamedAll(sig, x, sel);
      assert Back(data, x, sel, p) <==> data[p].valid && sel != NONE && Leads(data[p].signature, x, sel);
    }
    forall x | x in forest
      ensures StaysIn(end[x], forest)
    {
      assert StaysIn(data[x], forest);
    }
  }

  /** Entering a root and making it invalid again leaves the graph as it was. */
  lemma InvalidateUndoesUpdate(data: ConnectionData, entered: ConnectionData, left: ConnectionData, forest: set<nat>,
                               root: nat)
    requires Exact(data, forest) && root in forest && !data[root].valid && Free(data, forest, data[root].signature)
    requires Inserted(data, entered, data[root].signature, |data[root].signature|, root)
    requires Erased(Flagged(entered, root, true), left, data[root].signature, |data[root].signature|)
    ensures Flagged(left, root, false) == data
  {
    hide Named, Entered;
    var sig := data[root].signature;
    forall x | 0 <= x < |data|
      ensures Flagged(left, root, false)[x] == data[x]
    {
      NamedFree(data, forest, sig, x);
      EnteredThenErased(data[x].bwdMap, Named(sig, |sig|, x), root);
    }
  }

  lemma NamedFree(data: ConnectionData, forest: set<nat>, sig: CutpointSignature, x: nat)
    requires (forall y :: y in forest ==> y < |data|) && Free(data, forest, sig) && x < |data|
    ensures Named(sig, |sig|, x) !! data[x].bwdMap.Keys
  {
  }

  lemma EnteredThenErased(m: map<Word, nat>, sels: set<Word>, root: nat)
    requires sels !! m.Keys
    ensures Entered(m, sels, root) - sels == m
  {
  }

  /** What the source asserts before it erases an entry. */
  lemma LookupFinds(data: ConnectionData, now: ConnectionData, forest: set<nat>, root: nat, i: nat)
    requires Exact(data, forest) && root in forest && data[root].valid && DistinctRoots(data[root].signature)
    requires i < |data[root].signature| && Erased(data, now, data[root].signature, i)
    requires data[root].signature[i].bwdSelector != NONE
    ensures data[root].signature[i].root < |data|
    ensures Back(now, data[root].signature[i].root, data[root].signature[i].bwdSelector, root)
  {
    var t, sel := data[root].signature[i].root, data[root].signature[i].bwdSelector;
    assert StaysIn(data[root], forest);
    assert Leads(data[root].signature, t, sel);
    assert Back(data, t, sel, root);
    NamedOnce(data[root].signature, i);
  }
}
