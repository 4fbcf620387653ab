/** Normalization of the root graph: unmarked roots are taken over by the roots that refer
    to them, the rest renumbered. */
module Normalization {
  import opened RootGraph
  import opened Signatures
  import opened BackwardMaps
  import opened CutpointMerge
  import opened ConnectionGraphs
  import opened RootTraversal

  // ---------- what every step keeps ----------

  /** No selector of a root is defined in two signatures. */
  ghost predicate Apart(sig: CutpointSignature, other: CutpointSignature) {
    forall i, j :: 0 <= i < |sig| && 0 <= j < |other| && sig[i].root == other[j].root ==>
      sig[i].defines !! other[j].defines
  }

  ghost predicate OnlyMarked(sig: CutpointSignature, marked: set<nat>) {
    forall i :: 0 <= i < |sig| ==> sig[i].root in marked
  }

  /** A forest with exact backward maps, in which an unmarked root has at most one root that refers to it. */
  ghost predicate Mergeables(data: ConnectionData, forest: set<nat>, marked: set<nat>) {
    && Exact(data, forest)
    && (forall p :: p in forest ==> Proper(data[p]))
    && (forall p, q :: p in forest && q in forest && p != q ==> Apart(data[p].signature, data[q].signature))
    && (forall r :: r in forest && r !in marked ==> !HasRoot(data[r].signature, r))
    && (forall r, p, q :: r in forest && r !in marked && p in forest && q in forest ==>
          HasRoot(data[p].signature, r) && HasRoot(data[q].signature, r) ==> p == q)
  }

  ghost predicate Proper(info: RootInfo) {
    info.valid && DistinctRoots(info.signature) && ValidSignature(info.signature)
  }

  /** The roots being normalized, one for the sake of the other; an unmarked one because the one below refers to it. */
  ghost predicate Stacked(data: ConnectionData, forest: set<nat>, marked: set<nat>, normalized: set<nat>,
                          stack: seq<nat>) {
    && (forall j, l :: 0 <= j < l < |stack| ==> stack[j] != stack[l])
    && (forall j :: 0 <= j < |stack| ==> stack[j] in forest && stack[j] < |data| && stack[j] in normalized)
    && (forall j {:trigger stack[j]} :: 0 <= j < |stack| && stack[j] !in marked ==>
          j > 0 && HasRoot(data[stack[j - 1]].signature, stack[j]))
  }

  /** Roots normalized and left have only marked targets, and are marked themselves or `last`. */
  ghost predicate Settled(data: ConnectionData, forest: set<nat>, marked: set<nat>, normalized: set<nat>,
                          stack: seq<nat>, last: set<nat>)
  {
    forall p :: p in forest && p in normalized && p !in stack && p < |data| ==>
      OnlyMarked(data[p].signature, marked) && (p in marked || p in last)
  }

  /** Against how it was (`orig`): roots not normalized have their signatures, and what finished
      ones referred to is normalized. */
  ghost predicate Followed(orig: ConnectionData, data: ConnectionData, normalized: set<nat>, stack: seq<nat>) {
    && |data| == |orig|
    && (forall p :: 0 <= p < |orig| && p !in normalized ==> data[p].signature == orig[p].signature)
    && (forall p :: 0 <= p < |orig| && p in normalized && p !in stack ==> Targets(orig[p].signature) <= normalized)
  }

  ghost function Targets(sig: CutpointSignature): set<nat> {
    set i | 0 <= i < |sig| :: sig[i].root
  }

  ghost predicate Going(orig: ConnectionData, data: ConnectionData, forest: set<nat>, marked: set<nat>,
                        normalized: set<nat>, stack: seq<nat>, last: set<nat>)
  {
    && Mergeables(data, forest, marked)
    && Stacked(data, forest, marked, normalized, stack)
    && Settled(data, forest, marked, normalized, stack, last)
    && Followed(orig, data, normalized, stack)
    && SameWays(orig, data, forest, marked)
  }

  /** References lead from `x` through the unmarked roots `path` to `y`. */
  ghost predicate Along(data: ConnectionData, marked: set<nat>, x: nat, path: seq<nat>, y: nat)
    decreases |path|
  {
    && x < |data|
    && if path == [] then HasRoot(data[x].signature, y)
       else
         && HasRoot(data[x].signature, path[0]) && path[0] !in marked
         && Along(data, marked, path[0], path[1..], y)
  }

  /** References lead from `x` to `y`, through unmarked roots only. */
  ghost predicate Via(data: ConnectionData, marked: set<nat>, x: nat, y: nat) {
    exists path :: Along(data, marked, x, path, y)
  }

  /** A root of the forest gets to the same marked roots as it did. */
  ghost predicate SameWays(orig: ConnectionData, data: ConnectionData, forest: set<nat>, marked: set<nat>) {
    forall x, y {:trigger Via(data, marked, x, y)} :: x in forest && y in marked ==>
      (Via(data, marked, x, y) <==> Via(orig, marked, x, y))
  }

  /** Nothing that was marked or normalized is lost, and what was normalized is as it was. */
  ghost predicate Kept(data: ConnectionData, now: ConnectionData, forest: set<nat>, forest': set<nat>, marked: set<nat>,
                       normalized: set<nat>, normalized': set<nat>)
  {
    && |now| == |data| && forest' <= forest && normalized <= normalized'
    && (forall p :: p in forest && (p in marked || p in normalized) ==> p in forest')
    && (forall p :: 0 <= p < |data| && p in normalized ==> now[p].signature == data[p].signature)
  }

  lemma KeptMore(a: ConnectionData, b: ConnectionData, c: ConnectionData, f: set<nat>, g: set<nat>, h: set<nat>,
                 marked: set<nat>, l: set<nat>, m: set<nat>, n: set<nat>, root: nat)
    requires Kept(a, b, f, g, marked, l, m) && Kept(b, c, g, h, marked, m - {root}, n) && l <= m && root !in l && m <= n
    ensures Kept(a, c, f, h, marked, l, n)
  {
  }

  /** Entries of `sig` from the `i`th on are still to be seen; `now` has no other unmarked targets. */
  ghost predicate Pending(sig: CutpointSignature, i: nat, now: CutpointSignature, marked: set<nat>) {
    && i <= |sig|
    && (forall l :: i <= l < |sig| && sig[l].root !in marked ==> HasRoot(now, sig[l].root))
    && (forall r :: HasRoot(now, r) && r !in marked ==> HasRoot(sig[i..], r))
  }

  // ---------- one reference ----------

  /** An unmarked root that the top of the stack refers to was not normalized before. */
  lemma NotYetNormalized(orig: ConnectionData, data: ConnectionData, forest: set<nat>, marked: set<nat>,
                         normalized: set<nat>, stack: seq<nat>, c: nat)
    requires Going(orig, data, forest, marked, normalized, stack, {}) && stack != []
    requires c in forest && c !in marked && HasRoot(data[stack[|stack| - 1]].signature, c)
    ensures c !in normalized
  {
    var top := stack[|stack| - 1];
    forall j | 0 <= j < |stack|
      ensures stack[j] != c
    {
      assert j > 0 ==> stack[j - 1] in forest && stack[j - 1] != top;
    }
  }

  lemma HasRootAt(sig: CutpointSignature, t: nat) returns (k: nat)
    requires HasRoot(sig, t)
    ensures k < |sig| && sig[k].root == t
  {
    k :| 0 <= k < |sig| && sig[k].root == t;
  }

  lemma ReadyToMerge(data: ConnectionData, forest: set<nat>, marked: set<nat>, dst: nat, src: nat, k: nat)
    requires Mergeables(data, forest, marked) && dst in forest && src in forest && src !in marked
    requires k < |data[dst].signature| && data[dst].signature[k].root == src
    ensures Mergeable(data, forest, dst, src, k)
  {
    assert HasRoot(data[dst].signature, src);
    assert dst != src;
    assert Proper(data[dst]) && Proper(data[src]) && Apart(data[dst].signature, data[src].signature);
    forall p | p in forest && p != dst
      ensures !HasRoot(data[p].signature, src)
    {
    }
  }

  /** The merged signature: from `dst` all but `src`, and from `src`. */
  lemma MergedHas(sig: CutpointSignature, k: nat, src: nat, theirs: CutpointSignature, normal: CutpointSignature,
                  r: nat)
    requires Spliceable(sig, src, theirs, k) && NormalFormOf(Spliced(sig, |sig|, src, theirs), normal)
    ensures HasRoot(normal, r) <==> (r != src && HasRoot(sig, r)) || HasRoot(theirs, r)
  {
    var all := Spliced(sig, |sig|, src, theirs);
    if i :| 0 <= i < |normal| && normal[i].root == r {
      assert Represents(all, normal[i]);
      OccursSomewhere(all, r);
      var j :| 0 <= j < |all| && all[j].root == r;
      SplicedFrom(sig, |sig|, k, src, theirs, all[j]);
    }
    if r != src && HasRoot(sig, r) {
      var i :| 0 <= i < |sig| && sig[i].root == r;
      SplicedFrom(sig, |sig|, k, src, theirs, sig[i]);
      var j :| 0 <= j < |all| && all[j] == sig[i];
    }
    if HasRoot(theirs, r) {
      var i :| 0 <= i < |theirs| && theirs[i].root == r;
      SplicedFrom(sig, |sig|, k, src, theirs, Handed(sig[k], theirs[i]));
      var j :| 0 <= j < |all| && all[j] == Handed(sig[k], theirs[i]);
    }
  }

  lemma MergedApart(sig: CutpointSignature, k: nat, src: nat, theirs: CutpointSignature, normal: CutpointSignature,
                    other: CutpointSignature)
    requires Spliceable(sig, src, theirs, k) && NormalFormOf(Spliced(sig, |sig|, src, theirs), normal)
    requires Apart(sig, other) && Apart(theirs, other)
    ensures Apart(normal, other) && Apart(other, normal)
  {
    var all := Spliced(sig, |sig|, src, theirs);
    forall i, j | 0 <= i < |normal| && 0 <= j < |other| && normal[i].root == other[j].root
      ensures normal[i].defines !! other[j].defines
    {
      assert Represents(all, normal[i]);
      forall s | s in normal[i].defines
        ensures s !in other[j].defines
      {
        var l :| 0 <= l < |all| && all[l].root == normal[i].root && s in all[l].defines;
        SplicedFrom(sig, |sig|, k, src, theirs, all[l]);
      }
    }
  }

  /** `now` is `data` after `dst` took over `src`. */
  ghost predicate TakenOver(data: ConnectionData, now: ConnectionData, dst: nat, src: nat)
    requires dst < |data| && src < |data|
  {
    && |now| == |data|
    && (forall p :: 0 <= p < |data| ==>
          now[p].valid == data[p].valid && (p != dst ==> now[p].signature == data[p].signature))
    && NormalFormOf(Spliced(data[dst].signature, |data[dst].signature|, src, data[src].signature), now[dst].signature)
    && ValidSignature(now[dst].signature)
  }

  lemma MergeKeepsMergeables(data: ConnectionData, now: ConnectionData, forest: set<nat>, marked: set<nat>, dst: nat,
                             src: nat, k: nat)
    requires Mergeables(data, forest, marked) && Mergeable(data, forest, dst, src, k)
    requires TakenOver(data, now, dst, src) && Exact(now, forest - {src}) && OnlyMarked(data[src].signature, marked)
    ensures Mergeables(now, forest - {src}, marked)
  {
    var sig, theirs := data[dst].signature, data[src].signature;
    forall r, p | p in forest - {src} && r !in marked && HasRoot(now[p].signature, r)
      ensures HasRoot(data[p].signature, r)
    {
      if p == dst {
        MergedHas(sig, k, src, theirs, now[dst].signature, r);
        assert !HasRoot(theirs, r);
      }
    }
    forall p | p in forest - {src}
      ensures Proper(now[p])
    {
      assert Proper(data[p]);
    }
    forall p, q | p in forest - {src} && q in forest - {src} && p != q
      ensures Apart(now[p].signature, now[q].signature)
    {
      assert Apart(data[p].signature, data[q].signature);
      if p == dst {
        assert Apart(data[src].signature, data[q].signature);
        MergedApart(sig, k, src, theirs, now[dst].signature, data[q].signature);
      } else if q == dst {
        assert Apart(data[q].signature, data[p].signature) && Apart(data[src].signature, data[p].signature);
        MergedApart(sig, k, src, theirs, now[dst].signature, data[p].signature);
      }
    }
  }

  // ---------- where references lead ----------

  /** What a merge does to the references of a root: those of `dst` to `src` become those of `src`. */
  lemma MergedRefers(data: ConnectionData, now: ConnectionData, forest: set<nat>, dst: nat, src: nat, k: nat, p: nat,
                     r: nat)
    requires Mergeable(data, forest, dst, src, k) && TakenOver(data, now, dst, src) && p in forest - {src}
    ensures p < |data| == |now| && src < |data| && dst < |data|
    ensures HasRoot(now[p].signature, r) <==>
      (r != src && HasRoot(data[p].signature, r)) || (p == dst && HasRoot(data[src].signature, r))
  {
    if p == dst {
      MergedHas(data[dst].signature, k, src, data[src].signature, now[dst].signature, r);
    }
  }

  lemma TargetStays(data: ConnectionData, forest: set<nat>, p: nat, r: nat)
    requires Exact(data, forest) && p in forest && data[p].valid && HasRoot(data[p].signature, r)
    ensures r in forest
  {
    assert StaysIn(data[p], forest);
  }

  lemma {:induction false} AlongMerged(data: ConnectionData, now: ConnectionData, forest: set<nat>, marked: set<nat>,
                                       dst: nat, src: nat, k: nat, p: nat, path: seq<nat>, y: nat)
    requires Mergeable(data, forest, dst, src, k) && TakenOver(data, now, dst, src)
    requires OnlyMarked(data[src].signature, marked) && src !in marked && y in marked
    requires p in forest - {src} && Along(data, marked, p, path, y)
    ensures Via(now, marked, p, y)
    decreases |path|
  {
    hide Mergeable, TakenOver;
    if path == [] {
      MergedRefers(data, now, forest, dst, src, k, p, y);
      assert Along(now, marked, p, [], y);
    } else if path[0] == src {
      OnlyOneRefers(data, forest, dst, src, k, p);
      MergedRefers(data, now, forest, dst, src, k, p, y);
      assert Along(now, marked, p, [], y);
    } else {
      MergedRefers(data, now, forest, dst, src, k, p, path[0]);
      MergeableStays(data, forest, dst, src, k, p, path[0]);
      AlongMerged(data, now, forest, marked, dst, src, k, path[0], path[1..], y);
      var rest :| Along(now, marked, path[0], rest, y);
      assert ([path[0]] + rest)[1..] == rest;
      assert Along(now, marked, p, [path[0]] + rest, y);
    }
  }

  lemma OnlyOneRefers(data: ConnectionData, forest: set<nat>, dst: nat, src: nat, k: nat, p: nat)
    requires Mergeable(data, forest, dst, src, k) && p in forest
    ensures p < |data| && (HasRoot(data[p].signature, src) ==> p == dst)
  {}

  lemma MergeableStays(data: ConnectionData, forest: set<nat>, dst: nat, src: nat, k: nat, p: nat, r: nat)
    requires Mergeable(data, forest, dst, src, k) && p in forest
    ensures p < |data| && (HasRoot(data[p].signature, r) ==> r in forest)
  {
    if HasRoot(data[p].signature, r) {
      TargetStays(data, forest, p, r);
    }
  }

  lemma {:induction false} AlongBefore(data: ConnectionData, now: ConnectionData, forest: set<nat>, marked: set<nat>,
                                       dst: nat, src: nat, k: nat, p: nat, path: seq<nat>, y: nat)
    requires Mergeable(data, forest, dst, src, k) && TakenOver(data, now, dst, src)
    requires OnlyMarked(data[src].signature, marked) && src !in marked && y in marked
    requires p in forest - {src} && Along(now, marked, p, path, y)
    ensures Via(data, marked, p, y)
    decreases |path|
  {
    hide Mergeable, TakenOver;
    var r := if path == [] then y else path[0];
    MergedRefers(data, now, forest, dst, src, k, p, r);
    if path == [] {
      if HasRoot(data[p].signature, y) {
        assert Along(data, marked, p, [], y);
      } else {
        RefersToSource(data, forest, dst, src, k);
        assert Along(data, marked, src, [src][1..], y);
        assert Along(data, marked, p, [src], y);
      }
    } else {
      MergeableStays(data, forest, dst, src, k, p, r);
      AlongBefore(data, now, forest, marked, dst, src, k, r, path[1..], y);
      var rest :| Along(data, marked, r, rest, y);
      assert ([r] + rest)[1..] == rest;
      assert Along(data, marked, p, [r] + rest, y);
    }
  }

  lemma RefersToSource(data: ConnectionData, forest: set<nat>, dst: nat, src: nat, k: nat)
    requires Mergeable(data, forest, dst, src, k)
    ensures dst < |data| && HasRoot(data[dst].signature, src)
  {}

  /** A merge changes nothing of which marked roots a root gets to. */
  lemma MergeKeepsWays(orig: ConnectionData, data: ConnectionData, now: ConnectionData, forest: set<nat>,
                       marked: set<nat>, dst: nat, src: nat, k: nat)
    requires Mergeable(data, forest, dst, src, k) && TakenOver(data, now, dst, src)
    requires OnlyMarked(data[src].signature, marked) && src !in marked && SameWays(orig, data, forest, marked)
    ensures SameWays(orig, now, forest - {src}, marked)
  {
    hide Mergeable, TakenOver, Along;
    forall x, y {:trigger Via(now, marked, x, y)} | x in forest - {src} && y in marked
      ensures Via(now, marked, x, y) <==> Via(orig, marked, x, y)
    {
      assert Via(data, marked, x, y) <==> Via(orig, marked, x, y);
      if path :| Along(data, marked, x, path, y) {
        AlongMerged(data, now, forest, marked, dst, src, k, x, path, y);
      }
      if path :| Along(now, marked, x, path, y) {
        AlongBefore(data, now, forest, marked, dst, src, k, x, path, y);
      }
    }
  }

  /** Where only marked roots are referred to, that is what references lead to. */
  lemma ViaSettled(data: ConnectionData, marked: set<nat>, x: nat, y: nat)
    requires x < |data| && OnlyMarked(data[x].signature, marked)
    ensures Via(data, marked, x, y) <==> HasRoot(data[x].signature, y)
  {
    if HasRoot(data[x].signature, y) {
      assert Along(data, marked, x, [], y);
    }
  }

  /** Between the roots kept, references lead afterwards to where they led before, through roots since merged. */
  ghost predicate WaysKept(orig: ConnectionData, data: ConnectionData, kept: set<nat>, marked: set<nat>,
                           index: seq<nat>) {
    forall x, y {:trigger Via(orig, marked, x, y)} :: x in kept && y in kept ==>
      && x < |index| && y < |index| && index[x] < |data|
      && (HasRoot(data[index[x]].signature, index[y]) <==> Via(orig, marked, x, y))
  }

  lemma RenamedHas(sig: CutpointSignature, forest: set<nat>, index: seq<nat>, y: nat)
    requires TargetsIn(sig, forest) && y in forest && forall z :: z in forest ==> z < |index|
    requires forall z :: z in forest && index[z] == index[y] ==> z == y
    ensures HasRoot(RenamedSignature(sig, index), index[y]) <==> HasRoot(sig, y)
  {
    var named := RenamedSignature(sig, index);
    assert forall i :: 0 <= i < |sig| ==> named[i].root == index[sig[i].root];
    if i :| 0 <= i < |sig| && sig[i].root == y {
      assert named[i].root == index[y];
    }
  }

  lemma RenamedWays(orig: ConnectionData, data: ConnectionData, now: ConnectionData, forest: set<nat>, marked: set<nat>,
                    size: nat, index: seq<nat>)
    requires Exact(data, forest) && Numbers(data, forest, size, index) && |now| == size && forest <= marked
    requires SameWays(orig, data, forest, marked) && forall x :: x in forest ==> OnlyMarked(data[x].signature, marked)
    requires forall x :: x in forest ==> now[index[x]] == Renamed(data[x], index)
    ensures WaysKept(orig, now, forest, marked, index)
  {
    hide Via, HasRoot, RenamedSignature;
    forall x, y {:trigger Via(orig, marked, x, y)} | x in forest && y in forest
      ensures HasRoot(now[index[x]].signature, index[y]) <==> Via(orig, marked, x, y)
    {
      assert StaysIn(data[x], forest);
      RenamedHas(data[x].signature, forest, index, y);
      ViaSettled(data, marked, x, y);
      assert Via(data, marked, x, y) <==> Via(orig, marked, x, y);
    }
  }

  lemma PendingNext(sig: CutpointSignature, i: nat, now: CutpointSignature, marked: set<nat>)
    requires Pending(sig, i, now, marked) && i < |sig| && sig[i].root in marked
    ensures Pending(sig, i + 1, now, marked)
  {
    forall r | HasRoot(now, r) && r !in marked
      ensures HasRoot(sig[i + 1..], r)
    {
      RestHas(sig, i, r);
    }
  }

  lemma RestHas(sig: CutpointSignature, i: nat, r: nat)
    requires i < |sig| && HasRoot(sig[i..], r) && r != sig[i].root
    ensures HasRoot(sig[i + 1..], r)
  {
    var l :| 0 <= l < |sig[i..]| && sig[i..][l].root == r;
    assert sig[i..][l] == sig[i + l] == sig[i + 1..][l - 1];
  }

  lemma PendingMerged(sig: CutpointSignature, i: nat, before: CutpointSignature, k: nat, theirs: CutpointSignature,
                      now: CutpointSignature, marked: set<nat>)
    requires Pending(sig, i, before, marked) && i < |sig| && DistinctRoots(sig)
    requires Spliceable(before, sig[i].root, theirs, k) && OnlyMarked(theirs, marked)
    requires NormalFormOf(Spliced(before, |before|, sig[i].root, theirs), now)
    ensures Pending(sig, i + 1, now, marked)
  {
    var src := sig[i].root;
    forall r | HasRoot(now, r) && r !in marked
      ensures HasRoot(sig[i + 1..], r)
    {
      MergedHas(before, k, src, theirs, now, r);
      assert !HasRoot(theirs, r);
      RestHas(sig, i, r);
    }
    forall l | i + 1 <= l < |sig| && sig[l].root !in marked
      ensures HasRoot(now, sig[l].root)
    {
      MergedHas(before, k, src, theirs, now, sig[l].root);
    }
  }

  // ---------- one root ----------

  lemma StackedPush(data: ConnectionData, forest: set<nat>, marked: set<nat>, normalized: set<nat>, stack: seq<nat>,
                    root: nat)
    requires Stacked(data, forest, marked, normalized, stack) && root in forest && root < |data| && root !in normalized
    requires root !in marked ==> stack != [] && HasRoot(data[stack[|stack| - 1]].signature, root)
    ensures Stacked(data, forest, marked, normalized + {root}, stack + [root])
  {
    var stack' := stack + [root];
    assert forall j :: 0 <= j < |stack| ==> stack'[j] == stack[j];
  }

  lemma GoingPush(orig: ConnectionData, data: ConnectionData, forest: set<nat>, marked: set<nat>, normalized: set<nat>,
                  stack: seq<nat>, root: nat)
    requires Going(orig, data, forest, marked, normalized, stack, {}) && root in forest && root !in normalized
    requires root !in marked ==> stack != [] && HasRoot(data[stack[|stack| - 1]].signature, root)
    ensures Going(orig, data, forest, marked, normalized + {root}, stack + [root], {})
  {
    StackedPush(data, forest, marked, normalized, stack, root);
    FollowedPush(orig, data, normalized, stack, root);
    assert forall p :: p in stack + [root] <==> p in stack || p == root;
  }

  lemma FollowedPush(orig: ConnectionData, data: ConnectionData, normalized: set<nat>, stack: seq<nat>, root: nat)
    requires Followed(orig, data, normalized, stack)
    ensures Followed(orig, data, normalized + {root}, stack + [root])
  {
    assert forall p :: p in stack + [root] <==> p in stack || p == root;
  }

  lemma PendingAll(sig: CutpointSignature, marked: set<nat>)
    ensures Pending(sig, 0, sig, marked)
  {
    assert sig[0..] == sig;
    forall l | 0 <= l < |sig|
      ensures HasRoot(sig, sig[l].root)
    {
    }
  }

  /** Left again, `root` has only marked targets and everything it referred to is normalized. */
  lemma GoingPop(orig: ConnectionData, data: ConnectionData, forest: set<nat>, marked: set<nat>, normalized: set<nat>,
                 stack: seq<nat>, root: nat, sig: CutpointSignature)
    requires Going(orig, data, forest, marked, normalized, stack + [root], {}) && root < |orig|
    requires sig == orig[root].signature && Pending(sig, |sig|, data[root].signature, marked) &&
      Targets(sig) <= normalized
    ensures Going(orig, data, forest, marked, normalized, stack, {root})
  {
    var stack' := stack + [root];
    assert stack'[|stack|] == root;
    assert forall j :: 0 <= j < |stack| ==> stack'[j] == stack[j];
    assert forall p :: p in stack' <==> p in stack || p == root;
    assert sig[|sig|..] == [];
    forall i | 0 <= i < |data[root].signature|
      ensures data[root].signature[i].root in marked
    {
      assert HasRoot(data[root].signature, data[root].signature[i].root);
    }
  }

  lemma GoingOn(orig: ConnectionData, data: ConnectionData, forest: set<nat>, marked: set<nat>, normalized: set<nat>,
                stack: seq<nat>, last: nat)
    requires Going(orig, data, forest, marked, normalized, stack, {last}) && (last in marked || last in stack)
    ensures Going(orig, data, forest, marked, normalized, stack, {})
  {
  }

  /** The root on top of the stack took over one of its targets. */
  lemma GoingMerged(orig: ConnectionData, data: ConnectionData, now: ConnectionData, forest: set<nat>, marked: set<nat>,
                    normalized: set<nat>, stack: seq<nat>, src: nat, k: nat)
    requires Going(orig, data, forest, marked, normalized, stack, {src}) && stack != []
    requires src in normalized && src !in marked && src !in stack
    requires
      var dst := stack[|stack| - 1];
      && Mergeable(data, forest, dst, src, k) && TakenOver(data, now, dst, src) && Exact(now, forest - {src})
    ensures Going(orig, now, forest - {src}, marked, normalized, stack, {})
  {
    var dst := stack[|stack| - 1];
    MergeKeepsMergeables(data, now, forest, marked, dst, src, k);
    MergeKeepsWays(orig, data, now, forest, marked, dst, src, k);
    forall j {:trigger stack[j]} | 0 <= j < |stack| && stack[j] !in marked
      ensures j > 0 && HasRoot(now[stack[j - 1]].signature, stack[j])
    {
      assert stack[j - 1] != dst;
    }
  }

  lemma RootProper(data: ConnectionData, forest: set<nat>, marked: set<nat>, root: nat)
    requires Mergeables(data, forest, marked) && root in forest
    ensures root < |data| && root in All(data) && Proper(data[root]) && StaysIn(data[root], forest)
  {}

  class Normalizer {
    const graph: ConnectionGraph
    const marked: set<nat>
    var normalized: set<nat>

    constructor (graph: ConnectionGraph, marked: set<nat>)
      ensures this.graph == graph && this.marked == marked && normalized == {}
    {
      this.graph, this.marked, normalized := graph, marked, {};
    }

    /** Makes `root` and all it reaches take over what is not marked. */
    method NormalizeRoot(root: nat, ghost orig: ConnectionData, ghost forest: set<nat>, ghost stack: seq<nat>)
      returns (ghost forest': set<nat>)
      requires Going(orig, graph.data, forest, marked, normalized, stack, {}) && root < |orig|
      requires root in normalized || root in forest
      requires root !in normalized && root !in marked ==>
        stack != [] && HasRoot(graph.data[stack[|stack| - 1]].signature, root)
      modifies this, graph
      ensures Going(orig, graph.data, forest', marked, normalized, stack, {root}) && root in normalized
      ensures Kept(old(graph.data), graph.data, forest, forest', marked, old(normalized), normalized)
      ensures root in forest ==> root in forest'
      ensures root in old(normalized) ==>
        normalized == old(normalized) && forest' == forest && graph.data == old(graph.data)
      decreases All(orig) - normalized, 1
    {
      forest' := forest;
      if root in normalized {
        return;
      }
      GoingPush(orig, graph.data, forest, marked, normalized, stack, root);
      normalized := normalized + {root};
      var signature := graph.data[root].signature;
      ghost var stack' := stack + [root];
      PendingAll(signature, marked);
      RootProper(graph.data, forest, marked, root);
      hide Mergeables, Stacked, Settled, SameWays, HasRoot;
      for i := 0 to |signature|
        invariant Going(orig, graph.data, forest', marked, normalized, stack', {})
        invariant Kept(old(graph.data), graph.data, forest, forest', marked, old(normalized), normalized)
        invariant root in forest' && old(normalized) + {root} <= normalized
        invariant Pending(signature, i, graph.data[root].signature, marked)
        invariant Targets(signature[..i]) <= normalized
      {
        ghost var before, had, done := graph.data, forest', normalized;
        forest' := NormalizeTarget(root, signature, i, orig, had, stack');
        KeptMore(old(graph.data), before, graph.data, forest, had, forest', marked, old(normalized), done, normalized,
          root);
        TargetsMore(signature, i);
      }
      assert signature[..|signature|] == signature;
      GoingPop(orig, graph.data, forest', marked, normalized, stack, root, signature);
    }

    /** One target of `root`, which is on top of the stack. */
    method NormalizeTarget(root: nat, signature: CutpointSignature, i: nat, ghost orig: ConnectionData,
                           ghost forest: set<nat>, ghost stack: seq<nat>)
      returns (ghost forest': set<nat>)
      requires Going(orig, graph.data, forest, marked, normalized, stack, {})
      requires stack != [] && stack[|stack| - 1] == root && root in forest
      requires i < |signature| && DistinctRoots(signature) && Pending(signature, i, graph.data[root].signature, marked)
      requires signature[i].root in marked ==> signature[i].root in forest
      modifies this, graph
      ensures Going(orig, graph.data, forest', marked, normalized, stack, {})
      ensures Kept(old(graph.data), graph.data, forest, forest', marked, old(normalized) - {root}, normalized)
      ensures old(normalized) <= normalized && root in forest' && signature[i].root in normalized
      ensures Pending(signature, i + 1, graph.data[root].signature, marked)
      decreases All(orig) - normalized, 2
    {
      var c := signature[i].root;
      assert root in normalized;
      TargetInForest(graph.data, forest, marked, root, signature, i);
      if c !in marked {
        NotYetNormalized(orig, graph.data, forest, marked, normalized, stack, c);
      }
      forest' := NormalizeRoot(c, orig, forest, stack);
      if c in marked {
        GoingOn(orig, graph.data, forest', marked, normalized, stack, c);
        PendingNext(signature, i, graph.data[root].signature, marked);
        return;
      }
      TakeOver(root, c, signature, i, orig, forest', stack);
      forest' := forest' - {c};
    }

    /** An unmarked target that was normalized is taken over. */
    method TakeOver(root: nat, c: nat, ghost signature: CutpointSignature, ghost i: nat, ghost orig: ConnectionData,
                    ghost forest: set<nat>, ghost stack: seq<nat>)
      requires Going(orig, graph.data, forest, marked, normalized, stack, {c})
      requires stack != [] && stack[|stack| - 1] == root && root in forest
      requires c in forest && c in normalized && c !in marked && c !in stack
      requires i < |signature| && DistinctRoots(signature) && signature[i].root == c
      requires Pending(signature, i, graph.data[root].signature, marked)
      modifies graph
      ensures Going(orig, graph.data, forest - {c}, marked, normalized, stack, {}) && |graph.data| == |old(graph.data)|
      ensures forall p :: 0 <= p < |graph.data| && p != root ==>
        graph.data[p].signature == old(graph.data[p]).signature
      ensures Pending(signature, i + 1, graph.data[root].signature, marked)
    {
      ghost var k := HasRootAt(graph.data[root].signature, c);
      ReadyToMerge(graph.data, forest, marked, root, c, k);
      graph.MergeCutpoint(root, c, k, forest);
      GoingMerged(orig, old(graph.data), graph.data, forest, marked, normalized, stack, c, k);
      PendingMerged(signature, i, old(graph.data[root]).signature, k, old(graph.data[c]).signature,
        graph.data[root].signature, marked);
    }
  }

  /** The next target is a root of the forest, since the marked ones were and the others are still referred to. */
  lemma TargetInForest(data: ConnectionData, forest: set<nat>, marked: set<nat>, root: nat, sig: CutpointSignature,
                       i: nat)
    requires Mergeables(data, forest, marked) && root in forest
    requires i < |sig| && Pending(sig, i, data[root].signature, marked)
    requires sig[i].root in marked ==> sig[i].root in forest
    ensures sig[i].root in forest && sig[i].root < |data|
    ensures sig[i].root !in marked ==> HasRoot(data[root].signature, sig[i].root)
  {
    assert Proper(data[root]) && StaysIn(data[root], forest);
  }

  lemma TargetsMore(sig: CutpointSignature, i: nat)
    requires i < |sig|
    ensures Targets(sig[..i + 1]) == Targets(sig[..i]) + {sig[i].root}
  {
    assert sig[..i + 1] == sig[..i] + [sig[i]];
    assert sig[..i + 1][i] == sig[i];
  }

  // ---------- all roots ----------

  ghost function Elements(order: seq<nat>): set<nat> {
    set k | 0 <= k < |order| :: order[k]
  }

  /** What a traversal leaves: the order of the forest's roots, and marks that tell which are referred to just once. */
  ghost predicate Ordered(data: ConnectionData, order: seq<nat>, marked: set<nat>) {
    && Mergeables(data, Elements(order), marked)
    && (forall k, l :: 0 <= k < l < |order| ==> order[k] != order[l])
    && Preceded(data, order, 0, marked)
  }

  /** More marks do no harm. */
  lemma MoreMarksOrdered(data: ConnectionData, order: seq<nat>, marked: set<nat>, more: set<nat>)
    requires Ordered(data, order, marked) && marked <= more
    ensures Ordered(data, order, more)
  {
    assert order[..|order|] == order;
    PrecededMore(data, order, order, 0, marked, more);
  }

  /** A forest in which no selector of a root is defined twice. */
  ghost predicate WellMade(data: ConnectionData, forest: set<nat>) {
    && Exact(data, forest)
    && (forall p :: p in forest ==> Proper(data[p]))
    && (forall p, q :: p in forest && q in forest && p != q ==> Apart(data[p].signature, data[q].signature))
  }

  /** Without garbage, what was visited is the forest. */
  lemma NoGarbageVisited(data: ConnectionData, forest: set<nat>, from: set<nat>, visited: set<nat>)
    requires Coherent(data, forest) && LeastClosed(data, from, visited) && from <= forest && forest <= visited
    ensures visited == forest
  {
  }

  /** The marks of a traversal tell which roots are referred to once only. */
  lemma MarksAreEnough(data: ConnectionData, forest: set<nat>, marked: set<nat>)
    requires WellMade(data, forest) && MarksTell(data, RefsOf(data, forest), forest, marked)
    ensures Mergeables(data, forest, marked)
  {
    forall r, p, q | r in forest && r !in marked && p in forest && q in forest && HasRoot(data[p].signature, r)
      ensures p != r && (HasRoot(data[q].signature, r) ==> p == q)
    {
      assert Told(data, RefsOf(data, forest), forest, marked, r);
      var only :| OnlyOne(data, RefsOf(data, forest), r, only);
      assert forall x :: x in forest && HasRoot(data[x].signature, r) ==> x == only.x by {
        forall x | x in forest && HasRoot(data[x].signature, r)
          ensures x == only.x
        {
          var i := HasRootAt(data[x].signature, r);
          assert Ref(x, i) in RefsOf(data, forest);
        }
      }
    }
  }

  lemma ListedElements(order: seq<nat>, visited: set<nat>)
    requires Listed([], order, {}, visited)
    ensures Elements(order) == visited
    ensures forall k, l :: 0 <= k < l < |order| ==> order[k] != order[l]
  {
    forall x | x in visited
      ensures x in Elements(order)
    {
      assert ListedAfter(order, 0, x);
    }
  }

  /** Orders and marks the roots of the forest, unless there is garbage; `forbidden` roots are marked in any case. */
  method Scan(data: ConnectionData, vars: seq<Data>, live: seq<bool>, forbidden: set<nat>)
    returns (garbage: bool, order: seq<nat>, marked: set<nat>)
    requires |live| == |data| && WellMade(data, Forest(live)) && ValidVars(Forest(live), vars)
    ensures forall reach :: LeastClosed(data, Referred(vars), reach) ==> (garbage <==> !(Forest(live) <= reach))
    ensures !garbage ==> Ordered(data, order, marked) && Elements(order) == Forest(live)
    ensures !garbage ==> forbidden <= marked && Referred(vars) <= marked
    ensures !garbage ==> forall r :: r in marked ==>
      r in forbidden || MarkedFor(data, Referred(vars), State(Forest(live), order, marked), r)
  {
    ghost var forest := Forest(live);
    ExactIsCoherent(data, forest);
    var t := new Traversal(data, forest);
    t.Traverse(vars);
    order, marked := t.order, t.marked + forbidden;
    garbage := t.CheckGarbage(live);
    forall reach | LeastClosed(data, Referred(vars), reach)
      ensures reach == t.visited
    {
      LeastClosedUnique(data, Referred(vars), reach, t.visited);
    }
    if !garbage {
      NoGarbageVisited(data, forest, Referred(vars), t.visited);
      ListedElements(order, t.visited);
      MarksAreEnough(data, forest, t.marked);
      MoreMarksOrdered(data, order, t.marked, marked);
    }
  }

  /** The first `j` of the order are numbered if they are marked, the first `offset` numbers are used. */
  ghost predicate Indexed(order: seq<nat>, j: nat, marked: set<nat>, index: seq<nat>, offset: nat) {
    && j <= |order| && offset <= j
    && (forall x :: 0 <= x < |index| ==> (index[x] != NONE <==> x in Elements(order[..j]) * marked))
    && (forall x :: 0 <= x < |index| && index[x] != NONE ==> index[x] < offset)
    && (forall x, y :: 0 <= x < |index| && 0 <= y < |index| && index[x] != NONE && index[x] == index[y] ==> x == y)
    && (forall z :: 0 <= z < offset ==> Numbered(Elements(order[..j]) * marked, index, z))
    && InOrder(order, j, marked, index)
  }

  /** The numbers go up along the marked roots of the order. */
  ghost predicate InOrder(order: seq<nat>, j: nat, marked: set<nat>, index: seq<nat>)
    requires j <= |order|
  {
    && (forall k :: 0 <= k < j && order[k] in marked ==> order[k] < |index|)
    && forall k, l :: 0 <= k < l < j && order[k] in marked && order[l] in marked ==> index[order[k]] < index[order[l]]
  }

  lemma InOrderMore(order: seq<nat>, j: nat, marked: set<nat>, index: seq<nat>, offset: nat)
    requires Indexed(order, j, marked, index, offset) && j < |order| && order[j] < |index|
    requires forall k, l :: 0 <= k < l < |order| ==> order[k] != order[l]
    ensures InOrder(order, j + 1, marked, if order[j] in marked then index[order[j] := offset] else index)
  {
    forall k | 0 <= k < j && order[k] in marked
      ensures index[order[k]] < offset
    {
      assert order[..j][k] == order[k];
      assert order[k] in Elements(order[..j]) * marked;
    }
  }

  lemma IndexedMore(order: seq<nat>, j: nat, marked: set<nat>, index: seq<nat>, offset: nat)
    requires Indexed(order, j, marked, index, offset) && j < |order| && order[j] < |index| && offset < NONE
    requires forall k, l :: 0 <= k < l < |order| ==> order[k] != order[l]
    ensures
      if order[j] in marked then Indexed(order, j + 1, marked, index[order[j] := offset], offset + 1)
      else Indexed(order, j + 1, marked, index, offset)
  {
    ElementsMore(order, j);
    InOrderMore(order, j, marked, index, offset);
    var had, has := Elements(order[..j]) * marked, Elements(order[..j + 1]) * marked;
    assert order[j] !in had;
    if order[j] in marked {
      var index' := index[order[j] := offset];
      forall z | 0 <= z < offset + 1
        ensures Numbered(has, index', z)
      {
        if z == offset {
          assert order[j] in has && index'[order[j]] == z;
        } else {
          assert Numbered(had, index, z);
          var x :| x in had && x < |index| && index[x] == z;
          assert index'[x] == z;
        }
      }
    } else {
      assert has == had;
    }
  }

  lemma ElementsMore(order: seq<nat>, j: nat)
    requires j < |order|
    ensures Elements(order[..j + 1]) == Elements(order[..j]) + {order[j]}
  {
    assert order[..j + 1][j] == order[j];
    assert forall k :: 0 <= k < j ==> order[..j + 1][k] == order[..j][k] == order[k];
  }

  lemma OrderNormalized(orig: ConnectionData, data: ConnectionData, order: seq<nat>, j: nat, marked: set<nat>,
                        normalized: set<nat>)
    requires Ordered(orig, order, marked) && Followed(orig, data, normalized, []) && j < |order|
    requires Elements(order[..j]) <= normalized && order[j] !in marked
    ensures order[j] in normalized
  {
    assert RefBefore(orig, order, j);
    var l :| 0 <= l < j && RefersTo(orig, order[l], order[j]);
    assert order[..j][l] == order[l] && order[l] in Elements(order[..j]);
    var i :| 0 <= i < |orig[order[l]].signature| && orig[order[l]].signature[i].root == order[j];
    assert order[j] in Targets(orig[order[l]].signature);
  }

  ghost predicate Canonical(order: seq<nat>, marked: set<nat>) {
    forall k :: 0 <= k < |order| ==> order[k] == k && k in marked
  }

  lemma CanonicalElements(order: seq<nat>, marked: set<nat>, x: nat)
    requires Canonical(order, marked)
    ensures x in Elements(order) <==> x < |order|
  {
    assert x < |order| ==> order[x] == x;
  }

  /** The roots as they are in their places, one after the other. */
  function InPlace(n: nat): (order: seq<nat>)
    ensures |order| == n && forall k :: 0 <= k < n ==> order[k] == k
  {
    seq(n, k => k)
  }

  /** A normalized forest can be normalized again with its roots in place, and is in the canonical form then. */
  lemma InPlaceOrdered(data: ConnectionData)
    requires Exact(data, All(data)) && forall p :: 0 <= p < |data| ==> Proper(data[p])
    requires forall p, q :: 0 <= p < |data| && 0 <= q < |data| && p != q ==> Apart(data[p].signature, data[q].signature)
    ensures Ordered(data, InPlace(|data|), All(data)) && Canonical(InPlace(|data|), All(data))
  {
    hide Apart;
    assert Canonical(InPlace(|data|), All(data));
    forall x: nat
      ensures x in Elements(InPlace(|data|)) <==> x in All(data)
    {
      CanonicalElements(InPlace(|data|), All(data), x);
    }
    assert Elements(InPlace(|data|)) == All(data);
  }

  lemma RenamedProper(info: RootInfo, forest: set<nat>, index: seq<nat>)
    requires Proper(info) && TargetsIn(info.signature, forest) && forall z :: z in forest ==> z < |index|
    requires forall y, z :: y in forest && z in forest && index[y] == index[z] ==> y == z
    ensures Proper(Renamed(info, index))
  {
    var sig, named := info.signature, RenamedSignature(info.signature, index);
    assert forall i :: 0 <= i < |sig| ==> named[i] == sig[i].(root := index[sig[i].root]);
  }

  lemma RenamedApart(sig: CutpointSignature, other: CutpointSignature, forest: set<nat>, index: seq<nat>)
    requires Apart(sig, other) && TargetsIn(sig, forest) && TargetsIn(other, forest)
    requires forall z :: z in forest ==> z < |index|
    requires forall y, z :: y in forest && z in forest && index[y] == index[z] ==> y == z
    ensures Apart(RenamedSignature(sig, index), RenamedSignature(other, index))
  {
    var named, others := RenamedSignature(sig, index), RenamedSignature(other, index);
    assert forall i :: 0 <= i < |sig| ==> named[i] == sig[i].(root := index[sig[i].root]);
    assert forall i :: 0 <= i < |other| ==> others[i] == other[i].(root := index[other[i].root]);
  }

  /** The renamed forest is as proper as it was, and its roots are in place. */
  lemma RenamedInPlace(data: ConnectionData, now: ConnectionData, forest: set<nat>, marked: set<nat>, size: nat,
                       index: seq<nat>)
    requires Mergeables(data, forest, marked) && Numbers(data, forest, size, index) && |now| == size
    requires Exact(now, All(now)) && forall x :: x in forest ==> now[index[x]] == Renamed(data[x], index)
    ensures Ordered(now, InPlace(|now|), All(now)) && Canonical(InPlace(|now|), All(now))
  {
    hide Proper, Apart, Renamed, Ordered, Canonical;
    forall p | 0 <= p < |now|
      ensures Proper(now[p])
    {
      assert Numbered(forest, index, p);
      var x :| x in forest && x < |index| && index[x] == p;
      assert StaysIn(data[x], forest);
      RenamedProper(data[x], forest, index);
    }
    forall p, q | 0 <= p < |now| && 0 <= q < |now| && p != q
      ensures Apart(now[p].signature, now[q].signature)
    {
      assert Numbered(forest, index, p) && Numbered(forest, index, q);
      var x :| x in forest && x < |index| && index[x] == p;
      var y :| y in forest && y < |index| && index[y] == q;
      RenamedPairApart(data, now, forest, index, x, y);
    }
    InPlaceOrdered(now);
  }

  lemma RenamedPairApart(data: ConnectionData, now: ConnectionData, forest: set<nat>, index: seq<nat>, x: nat, y: nat)
    requires Exact(data, forest) && x in forest && y in forest && data[x].valid && data[y].valid
    requires Apart(data[x].signature, data[y].signature)
    requires forall z :: z in forest ==> z < |index| && index[z] < |now| && now[index[z]] == Renamed(data[z], index)
    requires forall w, z :: w in forest && z in forest && index[w] == index[z] ==> w == z
    ensures Apart(now[index[x]].signature, now[index[y]].signature)
  {
    assert StaysIn(data[x], forest) && StaysIn(data[y], forest);
    RenamedApart(data[x].signature, data[y].signature, forest, index);
  }

  /** In the canonical form only what is behind the forest's roots goes. */
  lemma CanonicalExact(data: ConnectionData, order: seq<nat>, marked: set<nat>)
    requires Ordered(data, order, marked) && Canonical(order, marked)
    ensures |order| <= |data| && Exact(data[..|order|], All(data[..|order|]))
    ensures forall x :: 0 <= x < |order| ==> data[x].valid
  {
    var forest, n := Elements(order), |order|;
    forall x: nat
      ensures x in forest <==> x < n
    {
      CanonicalElements(order, marked, x);
    }
    assert n > 0 ==> n - 1 in forest;
    var now := data[..n];
    assert forest == All(now);
    forall x | x in forest
      ensures now[x] == data[x] && data[x].valid && StaysIn(now[x], forest)
    {
      assert Proper(data[x]) && StaysIn(data[x], forest);
    }
    forall x, sel, p {:trigger Back(now, x, sel, p)} | x in forest && p in forest
      ensures Back(now, x, sel, p) <==> now[p].valid && sel != NONE && Leads(now[p].signature, x, sel)
    {
      assert Back(data, x, sel, p) <==> data[p].valid && sel != NONE && Leads(data[p].signature, x, sel);
    }
  }

  lemma CanonicalInPlace(data: ConnectionData, order: seq<nat>, marked: set<nat>)
    requires Ordered(data, order, marked) && Canonical(order, marked)
    ensures |order| <= |data| && Ordered(data[..|order|], InPlace(|order|), All(data[..|order|]))
    ensures Canonical(InPlace(|order|), All(data[..|order|]))
  {
    hide Apart, Proper;
    CanonicalExact(data, order, marked);
    var now := data[..|order|];
    forall p | 0 <= p < |now|
      ensures Proper(now[p]) && p in Elements(order)
    {
      CanonicalElements(order, marked, p);
    }
    InPlaceOrdered(now);
  }

  lemma CanonicalWays(data: ConnectionData, order: seq<nat>, marked: set<nat>, index: seq<nat>)
    requires Ordered(data, order, marked) && Canonical(order, marked) && |order| <= |data| == |index|
    requires forall x :: 0 <= x < |index| ==> index[x] == if x < |order| then x else NONE
    ensures WaysKept(data, data[..|order|], Elements(order) * marked, marked, index)
  {
    hide Via, HasRoot;
    forall x, y {:trigger Via(data, marked, x, y)} | x in Elements(order) * marked && y in Elements(order) * marked
      ensures x < |order| && y < |order| && (HasRoot(data[x].signature, y) <==> Via(data, marked, x, y))
    {
      CanonicalElements(order, marked, x);
      CanonicalElements(order, marked, y);
      assert StaysIn(data[x], Elements(order)) && Proper(data[x]);
      assert OnlyMarked(data[x].signature, marked);
      ViaSettled(data, marked, x, y);
    }
  }

  lemma CanonicalIndexed(order: seq<nat>, marked: set<nat>, index: seq<nat>)
    requires Canonical(order, marked) && |order| <= |index| && |order| <= NONE
    requires forall x :: 0 <= x < |index| ==> index[x] == if x < |order| then x else NONE
    ensures Indexed(order, |order|, marked, index, |order|)
  {
    assert order[..|order|] == order;
    forall x: nat
      ensures x in Elements(order) * marked <==> x < |order|
    {
      CanonicalElements(order, marked, x);
      assert x < |order| ==> order[x] in marked;
    }
    forall z | 0 <= z < |order|
      ensures Numbered(Elements(order[..|order|]) * marked, index, z)
    {
      assert index[z] == z;
    }
  }

  /** Takes over every unmarked root and numbers the marked ones in the order given. */
  method Normalize(graph: ConnectionGraph, marked: set<nat>, order: seq<nat>) returns (merged: bool, index: seq<nat>)
    requires Ordered(graph.data, order, marked) && |order| <= NONE
    modifies graph
    ensures Exact(graph.data, All(graph.data)) && forall x :: 0 <= x < |graph.data| ==> graph.data[x].valid
    ensures |index| == |old(graph.data)| && Indexed(order, |order|, marked, index, |graph.data|)
    ensures merged <==> exists k :: 0 <= k < |order| && order[k] !in marked
    ensures WaysKept(old(graph.data), graph.data, Elements(order) * marked, marked, index)
    ensures Ordered(graph.data, InPlace(|graph.data|), All(graph.data))
    ensures Canonical(InPlace(|graph.data|), All(graph.data))
    ensures Canonical(order, marked) ==> |order| <= |old(graph.data)| && graph.data == old(graph.data)[..|order|]
  {
    merged := false;
    var i := 0;
    while i < |order|
      invariant i <= |order| && Canonical(order[..i], marked)
      decreases |order| - i
    {
      if i !in marked || order[i] != i {
        break;
      }
      i := i + 1;
    }
    if i == |order| {
      assert order[..|order|] == order;
      CanonicalExact(graph.data, order, marked);
      index := seq(|graph.data|, x => if 0 <= x < |order| then x else NONE);
      CanonicalIndexed(order, marked, index);
      CanonicalWays(graph.data, order, marked, index);
      CanonicalInPlace(graph.data, order, marked);
      graph.data := graph.data[..|order|];
      return;
    }
    merged, index := NormalizeRoots(graph, marked, order);
  }

  method NormalizeRoots(graph: ConnectionGraph, marked: set<nat>, order: seq<nat>)
    returns (merged: bool, index: seq<nat>)
    requires Ordered(graph.data, order, marked) && |order| <= NONE
    modifies graph
    ensures Exact(graph.data, All(graph.data)) && forall x :: 0 <= x < |graph.data| ==> graph.data[x].valid
    ensures |index| == |old(graph.data)| && Indexed(order, |order|, marked, index, |graph.data|)
    ensures merged <==> exists k :: 0 <= k < |order| && order[k] !in marked
    ensures WaysKept(old(graph.data), graph.data, Elements(order) * marked, marked, index)
    ensures Ordered(graph.data, InPlace(|graph.data|), All(graph.data))
    ensures Canonical(InPlace(|graph.data|), All(graph.data))
  {
    hide Going, Indexed;
    merged := false;
    index := seq(|graph.data|, _ => NONE);
    var normalizer := new Normalizer(graph, marked);
    var offset := 0;
    ghost var orig, forest := graph.data, Elements(order);
    assert order[..0] == [];
    NothingDone(orig, order, marked, index);
    for j := 0 to |order|
      invariant |index| == |orig| && Indexed(order, j, marked, index, offset)
      invariant Underway(orig, graph.data, order, j, marked, normalizer.normalized, forest)
      invariant merged <==> exists k :: 0 <= k < j && order[k] !in marked
    {
      forest := NormalizeNext(normalizer, order, j, orig, forest);
      index, offset := NumberNext(order, j, marked, index, offset);
      merged := merged || order[j] !in marked;
    }
    assert order[..|order|] == order;
    AllNumbered(orig, graph.data, order, marked, normalizer.normalized, forest, index, offset);
    ghost var before := graph.data;
    graph.FinishNormalization(offset, index, forest);
    RenamedInPlace(before, graph.data, forest, marked, offset, index);
    RenamedWays(orig, before, graph.data, forest, marked, offset, index);
  }

  lemma NothingDone(orig: ConnectionData, order: seq<nat>, marked: set<nat>, index: seq<nat>)
    requires Ordered(orig, order, marked) && |index| == |orig| && forall x :: 0 <= x < |index| ==> index[x] == NONE
    ensures Indexed(order, 0, marked, index, 0) && Underway(orig, orig, order, 0, marked, {}, Elements(order))
  {
    assert order[..0] == [] && Elements([]) == {};
  }

  /** A marked root gets the next number. */
  method NumberNext(order: seq<nat>, j: nat, marked: set<nat>, index: seq<nat>, offset: nat)
    returns (index': seq<nat>, offset': nat)
    requires Indexed(order, j, marked, index, offset) && j < |order| <= NONE && order[j] < |index|
    requires forall k, l :: 0 <= k < l < |order| ==> order[k] != order[l]
    ensures Indexed(order, j + 1, marked, index', offset') && |index'| == |index|
  {
    IndexedMore(order, j, marked, index, offset);
    index', offset' := index, offset;
    if order[j] in marked {
      index', offset' := index[order[j] := offset], offset + 1;
    }
  }

  method NormalizeNext(normalizer: Normalizer, order: seq<nat>, j: nat, ghost orig: ConnectionData,
                       ghost forest: set<nat>)
    returns (ghost forest': set<nat>)
    requires j < |order| && Ordered(orig, order, normalizer.marked)
    requires Underway(orig, normalizer.graph.data, order, j, normalizer.marked, normalizer.normalized, forest)
    modifies normalizer, normalizer.graph
    ensures Underway(orig, normalizer.graph.data, order, j + 1, normalizer.marked, normalizer.normalized, forest')
    ensures order[j] < |orig|
  {
    ghost var marked := normalizer.marked;
    RootToNormalize(orig, normalizer.graph.data, order, j, marked, normalizer.normalized, forest);
    forest' := normalizer.NormalizeRoot(order[j], orig, forest, []);
    if order[j] in marked {
      GoingOn(orig, normalizer.graph.data, forest', marked, normalizer.normalized, [], order[j]);
    }
    ElementsMore(order, j);
  }

  /** The first `j` of the order were normalized. */
  ghost predicate Underway(orig: ConnectionData, data: ConnectionData, order: seq<nat>, j: nat, marked: set<nat>,
                           normalized: set<nat>, forest: set<nat>)
    requires j <= |order|
  {
    && Going(orig, data, forest, marked, normalized, [], {})
    && Elements(order[..j]) <= normalized
    && Elements(order) * marked <= forest <= Elements(order)
  }

  lemma RootToNormalize(orig: ConnectionData, data: ConnectionData, order: seq<nat>, j: nat, marked: set<nat>,
                        normalized: set<nat>, forest: set<nat>)
    requires Ordered(orig, order, marked) && Going(orig, data, forest, marked, normalized, [], {}) && j < |order|
    requires Elements(order[..j]) <= normalized && Elements(order) * marked <= forest
    ensures order[j] < |orig| && if order[j] in marked then order[j] in forest else order[j] in normalized
  {
    assert order[j] in Elements(order);
    if order[j] !in marked {
      OrderNormalized(orig, data, order, j, marked, normalized);
    }
  }

  lemma AllNumbered(orig: ConnectionData, data: ConnectionData, order: seq<nat>, marked: set<nat>, normalized: set<nat>,
                    forest: set<nat>, index: seq<nat>, offset: nat)
    requires Going(orig, data, forest, marked, normalized, [], {}) && |index| == |orig|
    requires Indexed(order, |order|, marked, index, offset) && Elements(order) <= normalized
    requires Elements(order) * marked <= forest <= Elements(order)
    ensures Mergeables(data, forest, marked) && Exact(data, forest) && Numbers(data, forest, offset, index)
    ensures forest == Elements(order) * marked
    ensures SameWays(orig, data, forest, marked) && forall x :: x in forest ==> OnlyMarked(data[x].signature, marked)
  {
    assert order[..|order|] == order;
    forall p | p in forest
      ensures p in marked && Proper(data[p])
    {
      assert p in normalized && p !in [];
    }
    assert forest == Elements(order) * marked;
  }
}
