/** The connection graph of a forest automaton, changed in place. */
module ConnectionGraphs {
  import opened RootGraph
  import opened Signatures
  import opened BackwardMaps
  import opened CutpointMerge
  import Collections

  class ConnectionGraph {
    var data: ConnectionData

    constructor (data: ConnectionData)
      ensures this.data == data
    {
      this.data := data;
    }

    /** Takes a root out of the backward maps. */
    method Invalidate(root: nat, ghost forest: set<nat>)
      requires Exact(data, forest) && root in forest && DistinctRoots(data[root].signature)
      modifies this
      ensures Exact(data, forest) && |data| == |old(data)| && !data[root].valid
      ensures !old(data[root]).valid ==> data == old(data)
      ensures old(data[root]).valid ==>
        exists now ::
          && Erased(old(data), now, old(data[root]).signature, |old(data[root]).signature|)
          && data == Flagged(now, root, false)
    {
      if !data[root].valid {
        return;
      }
      var signature := data[root].signature;
      assert StaysIn(data[root], forest);
      Unchanged(data, signature, root);
      for i := 0 to |signature|
        invariant Erased(old(data), data, signature, i)
      {
        var t, sel := signature[i].root, signature[i].bwdSelector;
        ErasedMore(old(data), data, signature, i);
        if sel != NONE {
          LookupFinds(old(data), data, forest, root, i);
          assert data[t].bwdMap[sel] == root;
          data := WithBack(data, t, data[t].bwdMap - {sel});
        }
      }
      InvalidatedExact(old(data), data, forest, root);
      data := Flagged(data, root, false);
    }

    /** Enters the signature of an invalid root into the backward maps. */
    method UpdateBackwardData(root: nat, ghost forest: set<nat>)
      requires Exact(data, forest) && root in forest && !data[root].valid
      requires DistinctRoots(data[root].signature) && Free(data, forest, data[root].signature)
      modifies this
      ensures Exact(data, forest) && |data| == |old(data)| && data[root].valid
      ensures
        exists now ::
          && Inserted(old(data), now, old(data[root]).signature, |old(data[root]).signature|, root)
          && data == Flagged(now, root, true)
    {
      var signature := data[root].signature;
      Unchanged(data, signature, root);
      for i := 0 to |signature|
        invariant Inserted(old(data), data, signature, i, root)
      {
        var t, sel := signature[i].root, signature[i].bwdSelector;
        InsertedMore(old(data), data, signature, i, root);
        if sel != NONE {
          NamedOnce(signature, i);
          assert sel !in data[t].bwdMap;
          data := WithBack(data, t, data[t].bwdMap[sel := root]);
        }
      }
      UpdatedExact(old(data), data, forest, root);
      data := Flagged(data, root, true);
    }

    /** The first selector in a backward map that leads to `dst`. */
    method FindTo(t: nat, dst: nat) returns (found: bool, sel: Word)
      requires t < |data|
      ensures found ==> Back(data, t, sel, dst)
      ensures !found ==> forall other :: !Back(data, t, other, dst)
    {
      found, sel := false, NONE;
      var rest := data[t].bwdMap.Keys;
      while rest != {}
        invariant rest <= data[t].bwdMap.Keys && !found
        invariant forall other :: Back(data, t, other, dst) ==> other in rest
      {
        var next := Collections.Smallest(rest);
        if data[t].bwdMap[next] == dst {
          return true, next;
        }
        rest := rest - {next};
      }
    }

    /** One backward selector of the root taken over: dropped, or handed on to `dst` unless that has a lower one. */
    method MoveSelector(t: nat, sel: Word, keep: bool, dst: nat, src: nat, ghost own: Word)
      requires t < |data| && sel != NONE && dst != src && Back(data, t, sel, src) && NONE !in data[t].bwdMap
      requires forall other :: Back(data, t, other, dst) <==> other != NONE && other == own
      modifies this
      ensures data == WithBack(old(data), t, MovedMap(old(data[t]).bwdMap, own, sel, keep, dst))
    {
      var m := data[t].bwdMap;
      assert own != NONE ==> Back(data, t, own, dst);
      SettledMap(m, own, sel, dst);
      if !keep {
        data := WithBack(data, t, m - {sel});
        return;
      }
      var found, i := FindTo(t, dst);
      if !found {
        data := WithBack(data, t, m[sel := dst]);
        return;
      }
      if i < sel {
        data := WithBack(data, t, m - {sel});
        return;
      }
      data := WithBack(data, t, (m - {i})[sel := dst]);
    }

    /** The entries of `src` as the reference `cut` of `dst` hands them on, and their backward selectors moved. */
    method HandOver(dst: nat, src: nat, k: nat, ghost forest: set<nat>) returns (part: CutpointSignature)
      requires Mergeable(data, forest, dst, src, k)
      modifies this
      ensures part == HandedAll(old(data[dst]).signature[k], old(data[src]).signature) && |data| == |old(data)|
      ensures MovedUpTo(old(data), data, dst, old(data[dst]).signature, old(data[src]).signature,
                |old(data[src]).signature|, old(data[dst]).signature[k].bwdSelector != NONE)
    {
      var cut, theirs := data[dst].signature[k], data[src].signature;
      ghost var sig := data[dst].signature;
      var keep := cut.bwdSelector != NONE;
      part := [];
      MovedStart(data, dst, sig, theirs, keep);
      assert StaysIn(data[src], forest);
      for j := 0 to |theirs|
        invariant |part| == j && forall l :: 0 <= l < j ==> part[l] == Handed(cut, theirs[l])
        invariant MovedUpTo(old(data), data, dst, sig, theirs, j, keep)
      {
        part := part + [Handed(cut, theirs[j])];
        HandOverSelector(theirs[j], keep, dst, src, k, j, old(data), forest);
      }
    }

    /** The backward selector of the `j`th entry of `src`; `before` is how everything was before the first. */
    method HandOverSelector(tmp: CutpointInfo, keep: bool, dst: nat, src: nat, ghost k: nat, ghost j: nat,
                            ghost before: ConnectionData, ghost forest: set<nat>)
      requires Mergeable(before, forest, dst, src, k) && keep == (before[dst].signature[k].bwdSelector != NONE)
      requires j < |before[src].signature| && tmp == before[src].signature[j] && tmp.root < |before|
      requires MovedUpTo(before, data, dst, before[dst].signature, before[src].signature, j, keep)
      modifies this
      ensures MovedUpTo(before, data, dst, before[dst].signature, before[src].signature, j + 1, keep)
    {
      MovedMore(before, data, dst, before[dst].signature, before[src].signature, j, keep);
      if tmp.bwdSelector == NONE {
        return;
      }
      SelectorsAt(before, data, forest, dst, src, k, j);
      MoveSelector(tmp.root, tmp.bwdSelector, keep, dst, src, SelTo(before[dst].signature, tmp.root));
    }

    /** `dst` takes over `src`: the reference to `src` is replaced by what `src` itself refers to. */
    method MergeCutpoint(dst: nat, src: nat, ghost k: nat, ghost forest: set<nat>)
      requires Mergeable(data, forest, dst, src, k)
      modifies this
      ensures Exact(data, forest - {src}) && |data| == |old(data)|
      ensures forall p :: 0 <= p < |data| ==>
        data[p].valid == old(data[p]).valid && (p != dst ==> data[p].signature == old(data[p]).signature)
      ensures
        var sig := old(data[dst]).signature;
        NormalFormOf(Spliced(sig, |sig|, src, old(data[src]).signature), data[dst].signature)
      ensures ValidSignature(data[dst].signature)
    {
      hide MovedUpTo, NormalFormOf, Spliced, Leads, Back, StaysIn, HasRoot, DisjointDefines, ValidSignature,
        DistinctRoots;
      var sig, theirs := data[dst].signature, data[src].signature;
      var signature: CutpointSignature := [];
      SplicedNone(sig, src, theirs);
      for i := 0 to |sig|
        invariant signature == Spliced(sig, i, src, theirs) && |data| == |old(data)|
        invariant if i <= k then data == old(data)
                  else MovedUpTo(old(data), data, dst, sig, theirs, |theirs|, sig[k].bwdSelector != NONE)
      {
        SplicedNext(sig, i, src, theirs);
        if sig[i].root != src {
          signature := signature + [sig[i]];
        } else {
          DistinctAt(sig, i, k);
          var part := HandOver(dst, src, i, forest);
          signature := signature + part;
        }
      }
      SplicedIsProper(sig, |sig|, k, src, theirs);
      var normal := Normalize(signature);
      MergeEnds(old(data), data, data[dst := data[dst].(signature := normal)], forest, dst, src, k, normal);
      data := data[dst := data[dst].(signature := normal)];
    }

    /** A root of the forest goes to the place that `index` gives it. */
    method FinishNormalization(size: nat, index: seq<nat>, ghost forest: set<nat>)
      requires Exact(data, forest) && Numbers(data, forest, size, index)
      modifies this
      ensures |data| == size && Exact(data, All(data)) && forall y :: 0 <= y < size ==> data[y].valid
      ensures forall x :: x in forest ==> data[index[x]] == Renamed(old(data[x]), index)
      ensures forall x :: x in forest ==>
        |data[index[x]].signature| == |old(data[x].signature)| && data[index[x]].bwdMap.Keys == old(data[x].bwdMap.Keys)
      ensures forall x, i :: x in forest && 0 <= i < |old(data[x].signature)| ==>
        && old(data[x].signature[i].root) < |index|
        && data[index[x]].signature[i] ==
             old(data[x].signature[i]).(root := index[old(data[x].signature[i].root)])
    {
      var tmp := seq(size, _ => RootInfo(false, [], map[]));
      for i := 0 to |data|
        invariant |tmp| == size && data == old(data)
        invariant forall x :: x in forest && x < i ==> tmp[index[x]] == data[x]
      {
        if index[i] == NONE {
          continue;
        }
        tmp := tmp[index[i] := data[i]];
      }
      data := tmp;
      for y := 0 to size
        invariant |data| == size
        invariant forall z :: y <= z < size ==> data[z] == tmp[z]
        invariant forall z :: 0 <= z < y ==> data[z] == Renamed(tmp[z], index)
      {
        data := data[y := Renamed(data[y], index)];
      }
      RenumberedExact(old(data), data, forest, size, index);
    }
  }

  lemma SplicedNone(sig: CutpointSignature, src: nat, theirs: CutpointSignature)
    ensures Spliced(sig, 0, src, theirs) == []
  {}

  lemma SplicedNext(sig: CutpointSignature, i: nat, src: nat, theirs: CutpointSignature)
    requires i < |sig|
    ensures Spliced(sig, i + 1, src, theirs) ==
            Spliced(sig, i, src, theirs) + if sig[i].root != src then [sig[i]] else HandedAll(sig[i], theirs)
  {}

  lemma DistinctAt(sig: CutpointSignature, i: nat, k: nat)
    requires DistinctRoots(sig) && i < |sig| && k < |sig| && sig[i].root == sig[k].root
    ensures i == k
  {}

  /** All selectors moved and the new signature in its place, the merge is done. */
  lemma MergeEnds(data: ConnectionData, now: ConnectionData, end: ConnectionData, forest: set<nat>, dst: nat, src: nat,
                  k: nat, normal: CutpointSignature)
    requires Mergeable(data, forest, dst, src, k)
    requires
      var sig, theirs := data[dst].signature, data[src].signature;
      && MovedUpTo(data, now, dst, sig, theirs, |theirs|, sig[k].bwdSelector != NONE)
      && NormalFormOf(Spliced(sig, |sig|, src, theirs), normal)
      && end == now[dst := now[dst].(signature := normal)]
    ensures Exact(end, forest - {src}) && |end| == |data| && end[dst].signature == normal
    ensures forall p :: 0 <= p < |data| ==>
      end[p].valid == data[p].valid && (p != dst ==> end[p].signature == data[p].signature)
  {
    hide Spliced, NormalFormOf, Leads, Back, StaysIn, HasRoot, MovedMap, SelTo;
    MergedExact(data, now, end, forest, dst, src, k, normal);
  }

  /** A signature put in an array, normalized there, and what is left of it. */
  method Normalize(signature: CutpointSignature) returns (normal: CutpointSignature)
    requires ValidSignature(signature) && DisjointDefines(signature)
    ensures NormalFormOf(signature, normal) && ValidSignature(normal)
  {
    var a := new CutpointInfo[|signature|](i requires 0 <= i < |signature| => signature[i]);
    assert a[..] == signature;
    var size := NormalizeSignature(a);
    normal := a[..size];
  }

  /** What holds of the target of the next entry, whose map was not touched yet. */
  lemma SelectorsAt(data: ConnectionData, now: ConnectionData, forest: set<nat>, dst: nat, src: nat, k: nat, j: nat)
    requires Mergeable(data, forest, dst, src, k) && j < |data[src].signature| && |now| == |data|
    requires data[src].signature[j].bwdSelector != NONE
    requires data[src].signature[j].root < |data| &&
      now[data[src].signature[j].root] == data[data[src].signature[j].root]
    ensures
      var t, sel := data[src].signature[j].root, data[src].signature[j].bwdSelector;
      && Back(now, t, sel, src) && NONE !in now[t].bwdMap
      && forall other :: Back(now, t, other, dst) <==> other != NONE && other == SelTo(data[dst].signature, t)
  {
    var t, sel := data[src].signature[j].root, data[src].signature[j].bwdSelector;
    assert StaysIn(data[src], forest);
    OwnSelector(data, forest, dst, t);
    OwnSelector(data, forest, src, t);
    SelToIs(data[src].signature, j);
    assert Back(data, t, sel, src) <==> sel != NONE && sel == SelTo(data[src].signature, t);
    forall other
      ensures Back(now, t, other, dst) <==> other != NONE && other == SelTo(data[dst].signature, t)
    {
      assert Back(data, t, other, dst) <==> other != NONE && other == SelTo(data[dst].signature, t);
    }
  }

  // ---------- renumbering ----------

  /** `index` numbers the forest's roots, all of them valid, from 0 on. */
  ghost predicate Numbers(data: ConnectionData, forest: set<nat>, size: nat, index: seq<nat>) {
    && |index| == |data|
    && (forall x :: x in forest ==> x < |data| && data[x].valid)
    && (forall x :: 0 <= x < |data| ==> (index[x] != NONE <==> x in forest))
    && (forall x :: x in forest ==> index[x] < size)
    && (forall x, y :: x in forest && y in forest && index[x] == index[y] ==> x == y)
    && (forall z :: 0 <= z < size ==> Numbered(forest, index, z))
  }

  ghost predicate Numbered(forest: set<nat>, index: seq<nat>, z: nat) {
    exists x :: x in forest && x < |index| && index[x] == z
  }

  function Renumber(index: seq<nat>, x: nat): nat {
    if x < |index| then index[x] else NONE
  }

  function RenamedSignature(sig: CutpointSignature, index: seq<nat>): CutpointSignature {
    seq(|sig|, i requires 0 <= i < |sig| => sig[i].(root := Renumber(index, sig[i].root)))
  }

  function Renamed(info: RootInfo, index: seq<nat>): RootInfo {
    RootInfo(info.valid, RenamedSignature(info.signature, index),
             map sel | sel in info.bwdMap :: Renumber(index, info.bwdMap[sel]))
  }

  lemma RenamedLeads(sig: CutpointSignature, forest: set<nat>, index: seq<nat>, x: nat, sel: Word)
    requires TargetsIn(sig, forest) && x in forest
    requires forall y :: y in forest ==> y < |index|
    requires forall y, z :: y in forest && z in forest && index[y] == index[z] ==> y == z
    ensures Leads(RenamedSignature(sig, index), index[x], sel) <==> Leads(sig, x, sel)
  {
    var named := RenamedSignature(sig, index);
    assert forall i :: 0 <= i < |sig| ==>
      named[i].root == index[sig[i].root] && named[i].bwdSelector == sig[i].bwdSelector;
    if Leads(sig, x, sel) {
      var i :| 0 <= i < |sig| && sig[i].root == x && sig[i].bwdSelector == sel;
      assert named[i].root == index[x];
    }
  }

  lemma RenumberedExact(data: ConnectionData, now: ConnectionData, forest: set<nat>, size: nat, index: seq<nat>)
    requires Exact(data, forest) && Numbers(data, forest, size, index) && |now| == size
    requires forall x :: x in forest ==> now[index[x]] == Renamed(data[x], index)
    ensures Exact(now, All(now)) && forall y :: 0 <= y < size ==> now[y].valid
  {
    forall y | 0 <= y < size
      ensures now[y].valid && StaysIn(now[y], All(now))
    {
      assert Numbered(forest, index, y);
      var x :| x in forest && x < |index| && index[x] == y;
      assert StaysIn(data[x], forest);
    }
    forall y, sel, q {:trigger Back(now, y, sel, q)} | y in All(now) && q in All(now)
      ensures Back(now, y, sel, q) <==> now[q].valid && sel != NONE && Leads(now[q].signature, y, sel)
    {
      assert Numbered(forest, index, y) && Numbered(forest, index, q);
      var x :| x in forest && x < |index| && index[x] == y;
      var p :| p in forest && p < |index| && index[p] == q;
      RenamedBack(data, now, forest, size, index, x, sel, p);
    }
  }

  lemma RenamedBack(data: ConnectionData, now: ConnectionData, forest: set<nat>, size: nat, index: seq<nat>, x: nat,
                    sel: Word, p: nat)
    requires Exact(data, forest) && Numbers(data, forest, size, index) && |now| == size && x in forest && p in forest
    requires now[index[x]] == Renamed(data[x], index) && now[index[p]] == Renamed(data[p], index)
    ensures Back(now, index[x], sel, index[p]) <==>
      now[index[p]].valid && sel != NONE && Leads(now[index[p]].signature, index[x], sel)
  {
    hide RenamedSignature, Leads;
    assert StaysIn(data[x], forest) && StaysIn(data[p], forest);
    RenamedLeads(data[p].signature, forest, index, x, sel);
    assert Back(data, x, sel, p) <==> data[p].valid && sel != NONE && Leads(data[p].signature, x, sel);
  }
}
