/** A root taken over by the only root that refers to it: what becomes of signatures and backward maps. */
module CutpointMerge {
  import opened RootGraph
  import opened Signatures
  import opened BackwardMaps

  // ---------- the selector of each target ----------

  /** The backward selector that `sig` has for root `t`. */
  ghost function SelTo(sig: CutpointSignature, t: nat): Word {
    if i :| 0 <= i < |sig| && sig[i].root == t then sig[i].bwdSelector else NONE
  }

  lemma SelToIs(sig: CutpointSignature, i: nat)
    requires DistinctRoots(sig) && i < |sig|
    ensures SelTo(sig, sig[i].root) == sig[i].bwdSelector
  {
  }

  lemma SelToLeads(sig: CutpointSignature, t: nat, sel: Word)
    requires DistinctRoots(sig) && sel != NONE
    ensures Leads(sig, t, sel) <==> SelTo(sig, t) == sel
  {
    if i :| 0 <= i < |sig| && sig[i].root == t {
      SelToIs(sig, i);
      if Leads(sig, t, sel) {
        var j :| 0 <= j < |sig| && sig[j].root == t && sig[j].bwdSelector == sel;
        SelToIs(sig, j);
      }
    }
  }

  lemma SelToMore(sig: CutpointSignature, j: nat, t: nat)
    requires DistinctRoots(sig) && j < |sig|
    ensures SelTo(sig[..j + 1], t) == if t == sig[j].root then sig[j].bwdSelector else SelTo(sig[..j], t)
    ensures t == sig[j].root ==> SelTo(sig[..j], t) == NONE
  {
    var less, more := sig[..j], sig[..j + 1];
    assert more[j] == sig[j] && forall i :: 0 <= i < j ==> less[i] == more[i] == sig[i];
    if t == sig[j].root {
      SelToIs(more, j);
    } else if i :| 0 <= i < |more| && more[i].root == t {
      SelToIs(more, i);
      SelToIs(less, i);
    }
  }

  // ---------- the new signature ----------

  /** What the reference `cut` makes of an entry of the root it refers to. */
  function Handed(cut: CutpointInfo, e: CutpointInfo): CutpointInfo {
    e.(fwdSelectors := cut.fwdSelectors, bwdSelector := if cut.bwdSelector == NONE then NONE else e.bwdSelector)
  }

  function HandedAll(cut: CutpointInfo, sig: CutpointSignature): CutpointSignature {
    seq(|sig|, j requires 0 <= j < |sig| => Handed(cut, sig[j]))
  }

  /** The first `n` entries, with the entries of `src` in the place of the reference to it. */
  function Spliced(sig: CutpointSignature, n: nat, src: nat, theirs: CutpointSignature): CutpointSignature
    requires n <= |sig|
  {
    if n == 0 then []
    else
      Spliced(sig, n - 1, src, theirs) + if sig[n - 1].root != src then [sig[n - 1]] else HandedAll(sig[n - 1], theirs)
  }

  /** Two signatures to be spliced: each with one entry for a root, and together no selector defined twice. */
  ghost predicate Spliceable(sig: CutpointSignature, src: nat, theirs: CutpointSignature, k: nat) {
    && DistinctRoots(sig) && ValidSignature(sig) && k < |sig| && sig[k].root == src
    && DistinctRoots(theirs) && ValidSignature(theirs) && !HasRoot(theirs, src)
    && forall i, j :: 0 <= i < |sig| && 0 <= j < |theirs| && i != k && sig[i].root == theirs[j].root ==>
         sig[i].defines !! theirs[j].defines
  }

  /** Where an entry of the spliced signature comes from. */
  ghost predicate ComesFrom(sig: CutpointSignature, n: nat, k: nat, theirs: CutpointSignature, e: CutpointInfo)
    requires n <= |sig| && k < |sig|
  {
    || (exists i :: 0 <= i < n && i != k && sig[i] == e)
    || (k < n && exists j :: 0 <= j < |theirs| && Handed(sig[k], theirs[j]) == e)
  }

  lemma HandedHas(cut: CutpointInfo, theirs: CutpointSignature, e: CutpointInfo)
    ensures e in HandedAll(cut, theirs) <==> exists j :: 0 <= j < |theirs| && Handed(cut, theirs[j]) == e
  {
    var all := HandedAll(cut, theirs);
    assert forall j :: 0 <= j < |theirs| ==> all[j] == Handed(cut, theirs[j]);
  }

  lemma {:induction false} SplicedFrom(sig: CutpointSignature, n: nat, k: nat, src: nat, theirs: CutpointSignature,
                                       e: CutpointInfo)
    requires n <= |sig| && Spliceable(sig, src, theirs, k)
    ensures e in Spliced(sig, n, src, theirs) <==> ComesFrom(sig, n, k, theirs, e)
    decreases n
  {
    if n > 0 {
      SplicedFrom(sig, n - 1, k, src, theirs, e);
      if n - 1 == k {
        HandedHas(sig[k], theirs, e);
        assert e in Spliced(sig, n, src, theirs) <==>
          e in Spliced(sig, n - 1, src, theirs) || e in HandedAll(sig[k], theirs);
        assert !(k < n - 1);
      } else {
        assert sig[n - 1].root != src;
        assert e in Spliced(sig, n, src, theirs) <==> e in Spliced(sig, n - 1, src, theirs) || e == sig[n - 1];
      }
    }
  }

  lemma SplicedStep(sig: CutpointSignature, n: nat, k: nat, src: nat, theirs: CutpointSignature)
    requires n < |sig| && Spliceable(sig, src, theirs, k) && DisjointDefines(Spliced(sig, n, src, theirs))
    ensures DisjointDefines(Spliced(sig, n + 1, src, theirs))
  {
    var less, more := Spliced(sig, n, src, theirs), Spliced(sig, n + 1, src, theirs);
    assert n == k ==> forall a :: |less| <= a < |more| ==> more[a] == Handed(sig[k], theirs[a - |less|]);
    forall i, j | 0 <= i < j < |more| && more[i].root == more[j].root
      ensures more[i].defines !! more[j].defines
    {
      if j < |less| {
        assert more[i] == less[i] && more[j] == less[j];
      } else if i < |less| {
        assert less[i] in less && more[i] == less[i];
        SplicedFrom(sig, n, k, src, theirs, less[i]);
        assert n != k ==> more[j] == sig[n];
      }
    }
  }

  lemma {:induction false} SplicedIsProper(sig: CutpointSignature, n: nat, k: nat, src: nat, theirs: CutpointSignature)
    requires n <= |sig| && Spliceable(sig, src, theirs, k)
    ensures DisjointDefines(Spliced(sig, n, src, theirs)) && ValidSignature(Spliced(sig, n, src, theirs))
    decreases n
  {
    if n > 0 {
      SplicedIsProper(sig, n - 1, k, src, theirs);
      SplicedStep(sig, n - 1, k, src, theirs);
    }
  }

  // ---------- the new backward maps ----------

  /** The map of a root to which `dst` has selector `own` and the root taken over had `theirs`. */
  function MovedMap(m: map<Word, nat>, own: Word, theirs: Word, keep: bool, dst: nat): map<Word, nat> {
    if theirs == NONE then m
    else if !keep then m - {theirs}
    else (m - {theirs, own})[Lower(own, theirs) := dst]
  }

  ghost predicate MovedUpTo(data: ConnectionData, now: ConnectionData, dst: nat, sig: CutpointSignature,
                            theirs: CutpointSignature, j: nat, keep: bool)
    requires j <= |theirs|
  {
    |now| == |data| && forall t :: 0 <= t < |data| ==>
      now[t] == data[t].(bwdMap := MovedMap(data[t].bwdMap, SelTo(sig, t), SelTo(theirs[..j], t), keep, dst))
  }

  /** The only selector of `t` that leads to a valid root is the one its signature names. */
  lemma OwnSelector(data: ConnectionData, forest: set<nat>, p: nat, t: nat)
    requires Exact(data, forest) && p in forest && t in forest && data[p].valid && DistinctRoots(data[p].signature)
    ensures forall sel :: Back(data, t, sel, p) <==> sel != NONE && sel == SelTo(data[p].signature, t)
    ensures NONE !in data[t].bwdMap
  {
    forall sel
      ensures Back(data, t, sel, p) <==> sel != NONE && sel == SelTo(data[p].signature, t)
    {
      if sel != NONE {
        SelToLeads(data[p].signature, t, sel);
      }
    }
    assert StaysIn(data[t], forest);
    if NONE in data[t].bwdMap {
      assert Back(data, t, NONE, data[t].bwdMap[NONE]);
    }
  }

  /** The three cases of the source come to one map. */
  lemma SettledMap(m: map<Word, nat>, own: Word, theirs: Word, dst: nat)
    requires theirs in m && m[theirs] != dst && theirs != NONE && NONE !in m
    requires own != NONE ==> own in m && m[own] == dst
    ensures own == NONE ==> m[theirs := dst] == MovedMap(m, own, theirs, true, dst)
    ensures own != NONE && own < theirs ==> m - {theirs} == MovedMap(m, own, theirs, true, dst)
    ensures own != NONE && own >= theirs ==> (m - {own})[theirs := dst] == MovedMap(m, own, theirs, true, dst)
  {
  }

  lemma MovedStart(data: ConnectionData, dst: nat, sig: CutpointSignature, theirs: CutpointSignature, keep: bool)
    ensures MovedUpTo(data, data, dst, sig, theirs, 0, keep)
  {
    assert theirs[..0] == [];
  }

  lemma MovedMore(data: ConnectionData, now: ConnectionData, dst: nat, sig: CutpointSignature,
                  theirs: CutpointSignature, j: nat, keep: bool)
    requires j < |theirs| && DistinctRoots(theirs) && MovedUpTo(data, now, dst, sig, theirs, j, keep)
    requires theirs[j].root < |data|
    ensures
      var t, sel := theirs[j].root, theirs[j].bwdSelector;
      && now[t] == data[t]
      && MovedUpTo(data, WithBack(now, t, MovedMap(now[t].bwdMap, SelTo(sig, t), sel, keep, dst)), dst, sig, theirs,
           j + 1, keep)
      && (sel == NONE ==> MovedUpTo(data, now, dst, sig, theirs, j + 1, keep))
  {
    var t, sel := theirs[j].root, theirs[j].bwdSelector;
    SelToMore(theirs, j, t);
    var next := WithBack(now, t, MovedMap(now[t].bwdMap, SelTo(sig, t), sel, keep, dst));
    forall x | 0 <= x < |data|
      ensures next[x] ==
              data[x].(bwdMap := MovedMap(data[x].bwdMap, SelTo(sig, x), SelTo(theirs[..j + 1], x), keep, dst))
    {
      SelToMore(theirs, j, x);
    }
    if sel == NONE {
      assert next[t] == now[t];
      assert next == now;
    }
  }

  // ---------- both together ----------

  lemma LowestUnique(sig: CutpointSignature, t: nat, a: Word, b: Word)
    requires IsLowest(sig, t, a) && IsLowest(sig, t, b)
    ensures a == b
  {
  }

  /** The selector that the merged signature has for `t`. */
  ghost function MergedSel(sig: CutpointSignature, k: nat, theirs: CutpointSignature, t: nat): Word
    requires k < |sig|
  {
    if sig[k].bwdSelector == NONE then SelTo(sig, t) else Lower(SelTo(sig, t), SelTo(theirs, t))
  }

  lemma SplicedLowest(sig: CutpointSignature, k: nat, src: nat, theirs: CutpointSignature, t: nat)
    requires Spliceable(sig, src, theirs, k) && t != src
    ensures IsLowest(Spliced(sig, |sig|, src, theirs), t, MergedSel(sig, k, theirs, t))
  {
    var all, sel := Spliced(sig, |sig|, src, theirs), MergedSel(sig, k, theirs, t);
    forall i | 0 <= i < |all| && all[i].root == t
      ensures sel <= all[i].bwdSelector
    {
      SplicedFrom(sig, |sig|, k, src, theirs, all[i]);
      if j :| 0 <= j < |theirs| && Handed(sig[k], theirs[j]) == all[i] {
        SelToIs(theirs, j);
      } else {
        var j :| 0 <= j < |sig| && j != k && sig[j] == all[i];
        SelToIs(sig, j);
      }
    }
    if sel != NONE {
      var e := LowestEntry(sig, k, theirs, t);
      SplicedFrom(sig, |sig|, k, src, theirs, e);
      var i :| 0 <= i < |all| && all[i] == e;
    }
  }

  lemma LowestEntry(sig: CutpointSignature, k: nat, theirs: CutpointSignature, t: nat) returns (e: CutpointInfo)
    requires k < |sig| && DistinctRoots(sig) && DistinctRoots(theirs) && t != sig[k].root
    requires MergedSel(sig, k, theirs, t) != NONE
    ensures e.root == t && e.bwdSelector == MergedSel(sig, k, theirs, t) && ComesFrom(sig, |sig|, k, theirs, e)
  {
    if SelTo(sig, t) == MergedSel(sig, k, theirs, t) {
      var i :| 0 <= i < |sig| && sig[i].root == t;
      SelToIs(sig, i);
      e := sig[i];
    } else {
      var j :| 0 <= j < |theirs| && theirs[j].root == t;
      SelToIs(theirs, j);
      e := Handed(sig[k], theirs[j]);
    }
  }

  lemma MergedSelTo(sig: CutpointSignature, k: nat, src: nat, theirs: CutpointSignature, normal: CutpointSignature,
                    t: nat)
    requires Spliceable(sig, src, theirs, k) && t != src && NormalFormOf(Spliced(sig, |sig|, src, theirs), normal)
    ensures SelTo(normal, t) == MergedSel(sig, k, theirs, t)
  {
    var all := Spliced(sig, |sig|, src, theirs);
    SplicedLowest(sig, k, src, theirs, t);
    if i :| 0 <= i < |normal| && normal[i].root == t {
      SelToIs(normal, i);
      assert Represents(all, normal[i]);
      LowestUnique(all, t, normal[i].bwdSelector, MergedSel(sig, k, theirs, t));
    } else {
      assert !HasRoot(normal, t) && !HasRoot(all, t);
      assert IsLowest(all, t, NONE);
      LowestUnique(all, t, NONE, MergedSel(sig, k, theirs, t));
    }
  }

  lemma MergedTargets(sig: CutpointSignature, k: nat, src: nat, theirs: CutpointSignature, normal: CutpointSignature,
                      forest: set<nat>)
    requires Spliceable(sig, src, theirs, k) && NormalFormOf(Spliced(sig, |sig|, src, theirs), normal)
    requires TargetsIn(sig, forest) && TargetsIn(theirs, forest)
    ensures TargetsIn(normal, forest - {src})
  {
    var all := Spliced(sig, |sig|, src, theirs);
    forall i | 0 <= i < |normal|
      ensures normal[i].root in forest - {src}
    {
      assert Represents(all, normal[i]);
      OccursSomewhere(all, normal[i].root);
      var j :| 0 <= j < |all| && all[j].root == normal[i].root;
      SplicedFrom(sig, |sig|, k, src, theirs, all[j]);
    }
  }

  // ---------- what the merged signature says of a root ----------

  /** What all entries of a root say together. */
  datatype Totals = Totals(occurs: nat, refs: nat, selectors: nat, fwd: set<Word>, defines: set<Word>)

  ghost function TotalsOf(sig: CutpointSignature, t: nat): Totals {
    Totals(Occurs(sig, t), TotalRefs(sig, t), TotalSelectors(sig, t), AllSelectors(sig, t), AllDefines(sig, t))
  }

  function Sum(a: Totals, b: Totals): Totals {
    Totals(a.occurs + b.occurs, a.refs + b.refs, a.selectors + b.selectors, a.fwd + b.fwd, a.defines + b.defines)
  }

  function Nothing(): Totals {
    Totals(0, 0, 0, {}, {})
  }

  function Entry(e: CutpointInfo): Totals {
    Totals(1, e.refCount, e.selCount, e.fwdSelectors, e.defines)
  }

  lemma {:induction false} CountsJoin(a: CutpointSignature, b: CutpointSignature, t: nat)
    ensures Occurs(a + b, t) == Occurs(a, t) + Occurs(b, t)
    ensures TotalRefs(a + b, t) == TotalRefs(a, t) + TotalRefs(b, t)
    ensures TotalSelectors(a + b, t) == TotalSelectors(a, t) + TotalSelectors(b, t)
    decreases |b|
  {
    if b == [] {
      assert a + b == a;
    } else {
      CountsJoin(a, b[..|b| - 1], t);
      assert (a + b)[..|a + b| - 1] == a + b[..|b| - 1];
    }
  }

  lemma SetsJoin(a: CutpointSignature, b: CutpointSignature, t: nat)
    ensures AllSelectors(a + b, t) == AllSelectors(a, t) + AllSelectors(b, t)
    ensures AllDefines(a + b, t) == AllDefines(a, t) + AllDefines(b, t)
  {
    var all := a + b;
    assert forall i :: 0 <= i < |a| ==> all[i] == a[i];
    assert forall i :: 0 <= i < |b| ==> all[|a| + i] == b[i];
  }

  lemma TotalsJoin(a: CutpointSignature, b: CutpointSignature, t: nat)
    ensures TotalsOf(a + b, t) == Sum(TotalsOf(a, t), TotalsOf(b, t))
  {
    hide Occurs, TotalRefs, TotalSelectors, AllSelectors, AllDefines;
    CountsJoin(a, b, t);
    SetsJoin(a, b, t);
  }

  lemma CountsOne(e: CutpointInfo, t: nat)
    ensures Occurs([e], t) == if e.root == t then 1 else 0
    ensures TotalRefs([e], t) == if e.root == t then e.refCount else 0
    ensures TotalSelectors([e], t) == if e.root == t then e.selCount else 0
  {
    assert [e][..0] == [];
  }

  lemma SetsOne(e: CutpointInfo, t: nat)
    ensures AllSelectors([e], t) == if e.root == t then e.fwdSelectors else {}
    ensures AllDefines([e], t) == if e.root == t then e.defines else {}
  {
    assert [e][0] == e;
  }

  lemma OneTotals(e: CutpointInfo, t: nat)
    ensures TotalsOf([e], t) == if e.root == t then Entry(e) else Nothing()
  {
    hide Occurs, TotalRefs, TotalSelectors, AllSelectors, AllDefines;
    CountsOne(e, t);
    SetsOne(e, t);
  }

  lemma NoTotals(sig: CutpointSignature, t: nat)
    requires sig == []
    ensures TotalsOf(sig, t) == Nothing() && !HasRoot(sig, t)
  {}

  lemma HasRootLast(sig: CutpointSignature, t: nat)
    requires sig != []
    ensures HasRoot(sig, t) <==> HasRoot(sig[..|sig| - 1], t) || sig[|sig| - 1].root == t
  {
    var n := |sig| - 1;
    if i :| 0 <= i < n && sig[..n][i].root == t {
      assert sig[i].root == t;
    }
    if i :| 0 <= i < |sig| && sig[i].root == t {
      assert i < n ==> sig[..n][i].root == t;
    }
  }

  /** With one entry for each root, the totals are those of that entry. */
  lemma {:induction false} DistinctTotals(sig: CutpointSignature, t: nat)
    requires DistinctRoots(sig)
    ensures forall i :: 0 <= i < |sig| && sig[i].root == t ==> TotalsOf(sig, t) == Entry(sig[i])
    ensures !HasRoot(sig, t) ==> TotalsOf(sig, t) == Nothing()
    decreases |sig|
  {
    hide TotalsOf;
    if sig == [] {
      NoTotals(sig, t);
    } else {
      var n := |sig| - 1;
      DistinctTotals(sig[..n], t);
      TotalsJoin(sig[..n], [sig[n]], t);
      assert sig == sig[..n] + [sig[n]];
      OneTotals(sig[n], t);
      HasRootLast(sig, t);
      forall i | 0 <= i < |sig| && sig[i].root == t
        ensures TotalsOf(sig, t) == Entry(sig[i])
      {
        if i < n {
          assert sig[..n][i] == sig[i];
        } else {
          assert !HasRoot(sig[..n], t);
        }
      }
    }
  }

  lemma {:induction false} HandedTotals(cut: CutpointInfo, sig: CutpointSignature, t: nat)
    ensures
      TotalsOf(HandedAll(cut, sig), t) ==
      TotalsOf(sig, t).(fwd := if HasRoot(sig, t) then cut.fwdSelectors else {})
    decreases |sig|
  {
    hide TotalsOf, HasRoot;
    if sig == [] {
      NoTotals(sig, t);
    } else {
      var n := |sig| - 1;
      HandedTotals(cut, sig[..n], t);
      TotalsJoin(sig[..n], [sig[n]], t);
      assert sig == sig[..n] + [sig[n]];
      assert HandedAll(cut, sig) == HandedAll(cut, sig[..n]) + [Handed(cut, sig[n])];
      TotalsJoin(HandedAll(cut, sig[..n]), [Handed(cut, sig[n])], t);
      OneTotals(sig[n], t);
      OneTotals(Handed(cut, sig[n]), t);
      HasRootLast(sig, t);
    }
  }

  lemma {:induction false} SplicedTotals(sig: CutpointSignature, n: nat, k: nat, src: nat, theirs: CutpointSignature,
                                         t: nat)
    requires n <= |sig| && Spliceable(sig, src, theirs, k) && t != src && k < |sig|
    ensures
      TotalsOf(Spliced(sig, n, src, theirs), t) ==
      Sum(TotalsOf(sig[..n], t), if k < n then TotalsOf(HandedAll(sig[k], theirs), t) else Nothing())
    decreases n
  {
    hide Spliceable, HandedAll, TotalsOf;
    if n == 0 {
      NoTotals(sig[..0], t);
    } else {
      var before, last := Spliced(sig, n - 1, src, theirs), sig[n - 1];
      SplicedTotals(sig, n - 1, k, src, theirs, t);
      PlaceOfSource(sig, k, src, theirs, n - 1);
      assert sig[..n] == sig[..n - 1] + [last];
      TotalsJoin(sig[..n - 1], [last], t);
      OneTotals(last, t);
      TotalsJoin(before, if n - 1 == k then HandedAll(last, theirs) else [last], t);
    }
  }

  lemma PlaceOfSource(sig: CutpointSignature, k: nat, src: nat, theirs: CutpointSignature, i: nat)
    requires Spliceable(sig, src, theirs, k) && i < |sig|
    ensures sig[i].root == src <==> i == k
  {}

  /** What the record of a root says, given what all entries for it say. */
  ghost predicate Recorded(e: CutpointInfo, all: Totals) {
    && e.fwdSelectors == all.fwd && e.defines == all.defines
    && if all.occurs == 1 then
         e.refCount == all.refs && e.refInherited == (e.refCount > 1) && e.selCount == all.selectors
       else e.refCount == Lower(all.refs, 2) && !e.refInherited && e.selCount == |all.fwd| - 1
  }

  lemma RepresentsRecorded(all: CutpointSignature, e: CutpointInfo)
    requires Represents(all, e)
    ensures Recorded(e, TotalsOf(all, e.root)) && TotalsOf(all, e.root).occurs > 0
  {}

  /** The merged signature, root by root: of a root that only one of the two signatures has, the record says what that
      one's entry says, and of a root of both what the two say together, its references counted up to the limit; but the
      forward selectors of an entry taken over are those of the reference to the root taken over. */
  lemma MergedRecord(sig: CutpointSignature, k: nat, src: nat, theirs: CutpointSignature, normal: CutpointSignature,
                     r: nat)
    requires Spliceable(sig, src, theirs, k) && NormalFormOf(Spliced(sig, |sig|, src, theirs), normal)
    requires r < |normal| && normal[r].root != src
    ensures
      var e, t := normal[r], normal[r].root;
      && (HasRoot(sig, t) || HasRoot(theirs, t)) && e.bwdSelector == MergedSel(sig, k, theirs, t)
      && (forall i :: 0 <= i < |sig| && sig[i].root == t && !HasRoot(theirs, t) ==>
           && e.fwdSelectors == sig[i].fwdSelectors && e.defines == sig[i].defines && e.refCount == sig[i].refCount
           && e.selCount == sig[i].selCount && e.refInherited == (e.refCount > 1))
      && (forall j :: 0 <= j < |theirs| && theirs[j].root == t && !HasRoot(sig, t) ==>
           && e.fwdSelectors == sig[k].fwdSelectors && e.defines == theirs[j].defines
           && e.refCount == theirs[j].refCount && e.selCount == theirs[j].selCount
           && e.refInherited == (e.refCount > 1))
      && (forall i, j :: 0 <= i < |sig| && 0 <= j < |theirs| && sig[i].root == theirs[j].root == t ==>
           && e.fwdSelectors == sig[i].fwdSelectors + sig[k].fwdSelectors
           && e.defines == sig[i].defines + theirs[j].defines
           && e.refCount == Lower(sig[i].refCount + theirs[j].refCount, 2) && !e.refInherited
           && e.selCount == |e.fwdSelectors| - 1)
  {
    hide TotalsOf, Represents, Spliced, MergedSel, IsLowest, HandedAll;
    var e, t, all := normal[r], normal[r].root, Spliced(sig, |sig|, src, theirs);
    RepresentsRecorded(all, e);
    MergedSelTo(sig, k, src, theirs, normal, t);
    SelToIs(normal, r);
    MergedTotals(sig, k, src, theirs, t);
  }

  lemma MergedTotals(sig: CutpointSignature, k: nat, src: nat, theirs: CutpointSignature, t: nat)
    requires Spliceable(sig, src, theirs, k) && t != src
    ensures
      var all := TotalsOf(Spliced(sig, |sig|, src, theirs), t);
      && (forall i :: 0 <= i < |sig| && sig[i].root == t && !HasRoot(theirs, t) ==> all == Entry(sig[i]))
      && (forall j :: 0 <= j < |theirs| && theirs[j].root == t && !HasRoot(sig, t) ==>
           all == Entry(theirs[j]).(fwd := sig[k].fwdSelectors))
      && (forall i, j :: 0 <= i < |sig| && 0 <= j < |theirs| && sig[i].root == theirs[j].root == t ==>
           all == Sum(Entry(sig[i]), Entry(theirs[j]).(fwd := sig[k].fwdSelectors)))
      && (!HasRoot(sig, t) && !HasRoot(theirs, t) ==> all.occurs == 0)
  {
    hide TotalsOf, Spliced, HandedAll, Spliceable, Sum;
    SpliceableRoots(sig, k, src, theirs);
    assert sig[..|sig|] == sig;
    SplicedTotals(sig, |sig|, k, src, theirs, t);
    var own, more := TotalsOf(sig, t), TotalsOf(HandedAll(sig[k], theirs), t);
    assert TotalsOf(Spliced(sig, |sig|, src, theirs), t) == Sum(own, more);
    DistinctTotals(sig, t);
    TakenTotals(sig[k], theirs, t);
    SumNothing(own);
    SumNothing(more);
  }

  lemma SpliceableRoots(sig: CutpointSignature, k: nat, src: nat, theirs: CutpointSignature)
    requires Spliceable(sig, src, theirs, k)
    ensures DistinctRoots(sig) && DistinctRoots(theirs) && k < |sig|
  {}

  lemma TakenTotals(cut: CutpointInfo, theirs: CutpointSignature, t: nat)
    requires DistinctRoots(theirs)
    ensures forall j :: 0 <= j < |theirs| && theirs[j].root == t ==>
      TotalsOf(HandedAll(cut, theirs), t) == Entry(theirs[j]).(fwd := cut.fwdSelectors)
    ensures !HasRoot(theirs, t) ==> TotalsOf(HandedAll(cut, theirs), t) == Nothing()
  {
    hide TotalsOf, HandedAll;
    HandedTotals(cut, theirs, t);
    DistinctTotals(theirs, t);
  }

  lemma SumNothing(a: Totals)
    ensures Sum(a, Nothing()) == a == Sum(Nothing(), a)
  {}

  /** What is in a moved map, when `m` leads to `dst` by `own` and to the root taken over by `theirs` only. */
  lemma MovedMapHas(m: map<Word, nat>, own: Word, theirs: Word, keep: bool, dst: nat, src: nat)
    requires NONE !in m && dst != src
    requires forall sel :: sel in m && m[sel] == dst <==> sel != NONE && sel == own
    requires forall sel :: sel in m && m[sel] == src <==> sel != NONE && sel == theirs
    ensures
      var moved := MovedMap(m, own, theirs, keep, dst);
      && (forall sel :: sel in moved && moved[sel] == dst <==>
        sel != NONE && sel == if keep then Lower(own, theirs) else own)
      && (forall sel :: sel in moved ==> moved[sel] != src)
      && (forall sel :: sel in moved && moved[sel] != dst ==> sel in m && m[sel] == moved[sel])
      && (forall sel :: sel in m && m[sel] != dst && m[sel] != src ==> sel in moved && m[sel] == moved[sel])
  {
    assert own != NONE ==> own in m && m[own] == dst;
    assert theirs != NONE ==> theirs in m && m[theirs] == src;
  }

  /** `src`, to which only `dst` refers, is taken over by `dst`. */
  ghost predicate Mergeable(data: ConnectionData, forest: set<nat>, dst: nat, src: nat, k: nat) {
    && Exact(data, forest) && dst in forest && src in forest && dst != src
    && (forall p :: p in forest ==> data[p].valid)
    && Spliceable(data[dst].signature, src, data[src].signature, k)
    && forall p :: p in forest && p != dst ==> !HasRoot(data[p].signature, src)
  }

  lemma MergedExact(data: ConnectionData, now: ConnectionData, end: ConnectionData, forest: set<nat>, dst: nat,
                    src: nat, k: nat, normal: CutpointSignature)
    requires Mergeable(data, forest, dst, src, k)
    requires
      var sig, theirs := data[dst].signature, data[src].signature;
      && MovedUpTo(data, now, dst, sig, theirs, |theirs|, sig[k].bwdSelector != NONE)
      && NormalFormOf(Spliced(sig, |sig|, src, theirs), normal)
      && end == now[dst := now[dst].(signature := normal)]
    ensures Exact(end, forest - {src})
  {
    var sig, theirs := data[dst].signature, data[src].signature;
    var keep := sig[k].bwdSelector != NONE;
    assert theirs[..|theirs|] == theirs;
    assert StaysIn(data[dst], forest) && StaysIn(data[src], forest);
    MergedTargets(sig, k, src, theirs, normal, forest);
    forall x | x in forest - {src}
      ensures StaysIn(end[x], forest - {src})
    {
      MergedMapsAt(data, now, forest, dst, src, k, x);
      assert StaysIn(data[x], forest);
      if x != dst {
        NoTarget(data[x].signature, src, forest);
      }
    }
    forall x, sel, p {:trigger Back(end, x, sel, p)} | x in forest - {src} && p in forest - {src}
      ensures Back(end, x, sel, p) <==> end[p].valid && sel != NONE && Leads(end[p].signature, x, sel)
    {
      MergedMapsAt(data, now, forest, dst, src, k, x);
      assert Back(data, x, sel, p) <==> data[p].valid && sel != NONE && Leads(data[p].signature, x, sel);
      if p == dst {
        MergedSelTo(sig, k, src, theirs, normal, x);
        if sel != NONE {
          SelToLeads(normal, x, sel);
        }
      }
    }
  }

  lemma NoTarget(sig: CutpointSignature, src: nat, forest: set<nat>)
    requires TargetsIn(sig, forest) && !HasRoot(sig, src)
    ensures TargetsIn(sig, forest - {src})
  {
  }

  lemma MergedMapsAt(data: ConnectionData, now: ConnectionData, forest: set<nat>, dst: nat, src: nat, k: nat, x: nat)
    requires Mergeable(data, forest, dst, src, k) && x in forest
    requires
      var sig, theirs := data[dst].signature, data[src].signature;
      MovedUpTo(data, now, dst, sig, theirs, |theirs|, sig[k].bwdSelector != NONE)
    ensures
      var m, moved := data[x].bwdMap, now[x].bwdMap;
      && (forall sel :: sel in moved && moved[sel] == dst <==>
            sel != NONE && sel == MergedSel(data[dst].signature, k, data[src].signature, x))
      && (forall sel :: sel in moved ==> moved[sel] != src)
      && (forall sel :: sel in moved && moved[sel] != dst ==> sel in m && m[sel] == moved[sel])
      && (forall sel :: sel in m && m[sel] != dst && m[sel] != src ==> sel in moved && m[sel] == moved[sel])
  {
    var sig, theirs := data[dst].signature, data[src].signature;
    assert theirs[..|theirs|] == theirs;
    OwnSelector(data, forest, dst, x);
    OwnSelector(data, forest, src, x);
    var m := data[x].bwdMap;
    forall sel
      ensures sel in m && m[sel] == dst <==> sel != NONE && sel == SelTo(sig, x)
      ensures sel in m && m[sel] == src <==> sel != NONE && sel == SelTo(theirs, x)
    {
      assert Back(data, x, sel, dst) <==> sel != NONE && sel == SelTo(sig, x);
      assert Back(data, x, sel, src) <==> sel != NONE && sel == SelTo(theirs, x);
    }
    MovedMapHas(m, SelTo(sig, x), SelTo(theirs, x), sig[k].bwdSelector != NONE, dst, src);
  }
}
