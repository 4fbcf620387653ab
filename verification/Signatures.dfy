/** Cutpoint signatures: several records of one root become one. */
module Signatures {
  import opened RootGraph

  type CutpointSignature = seq<CutpointInfo>

  /** References are counted up to here. */
  const REF_CNT_TRESHOLD := 2

  /** The selectors always contain the all-ones word. */
  ghost predicate ValidSignature(sig: CutpointSignature) {
    forall i :: 0 <= i < |sig| ==> NONE in sig[i].fwdSelectors
  }

  ghost predicate DistinctRoots(sig: CutpointSignature) {
    forall i, j :: 0 <= i < j < |sig| ==> sig[i].root != sig[j].root
  }

  ghost predicate DisjointDefines(sig: CutpointSignature) {
    forall i, j :: 0 <= i < j < |sig| && sig[i].root == sig[j].root ==> sig[i].defines !! sig[j].defines
  }

  function Lower(a: nat, b: nat): nat {
    if a > b then b else a
  }

  function Capped(n: nat): nat {
    Lower(n, REF_CNT_TRESHOLD)
  }

  // ---------- the record of a root, described from all its entries ----------

  function Occurs(sig: CutpointSignature, t: nat): nat {
    if sig == [] then 0 else Occurs(sig[..|sig| - 1], t) + if sig[|sig| - 1].root == t then 1 else 0
  }

  function TotalRefs(sig: CutpointSignature, t: nat): nat {
    if sig == [] then 0
    else TotalRefs(sig[..|sig| - 1], t) + if sig[|sig| - 1].root == t then sig[|sig| - 1].refCount else 0
  }

  function TotalSelectors(sig: CutpointSignature, t: nat): nat {
    if sig == [] then 0
    else TotalSelectors(sig[..|sig| - 1], t) + if sig[|sig| - 1].root == t then sig[|sig| - 1].selCount else 0
  }

  ghost function AllSelectors(sig: CutpointSignature, t: nat): set<Word> {
    set i, s | 0 <= i < |sig| && sig[i].root == t && s in sig[i].fwdSelectors :: s
  }

  ghost function AllDefines(sig: CutpointSignature, t: nat): set<Word> {
    set i, s | 0 <= i < |sig| && sig[i].root == t && s in sig[i].defines :: s
  }

  ghost predicate IsLowest(sig: CutpointSignature, t: nat, sel: Word) {
    && (sel == NONE || exists i :: 0 <= i < |sig| && sig[i].root == t && sig[i].bwdSelector == sel)
    && forall i :: 0 <= i < |sig| && sig[i].root == t ==> sel <= sig[i].bwdSelector
  }

  /** `info` says of its root what all its entries in `sig` say together. */
  ghost predicate Represents(sig: CutpointSignature, info: CutpointInfo) {
    var t := info.root;
    && Occurs(sig, t) > 0
    && info.fwdSelectors == AllSelectors(sig, t) && info.defines == AllDefines(sig, t)
    && IsLowest(sig, t, info.bwdSelector)
    && if Occurs(sig, t) == 1 then
         && info.refCount == TotalRefs(sig, t) && info.refInherited == (info.refCount > 1)
         && info.selCount == TotalSelectors(sig, t)
       else
         info.refCount == Capped(TotalRefs(sig, t)) && !info.refInherited && info.selCount == |info.fwdSelectors| - 1
  }

  ghost predicate HasRoot(sig: CutpointSignature, t: nat) {
    exists i :: 0 <= i < |sig| && sig[i].root == t
  }

  /** One record for each root of `sig`. */
  ghost predicate NormalFormOf(sig: CutpointSignature, normal: CutpointSignature) {
    && DistinctRoots(normal)
    && (forall i :: 0 <= i < |normal| ==> Represents(sig, normal[i]))
    && forall t :: HasRoot(sig, t) ==> HasRoot(normal, t)
  }

  lemma {:induction false} OccursSomewhere(sig: CutpointSignature, t: nat)
    ensures Occurs(sig, t) > 0 <==> HasRoot(sig, t)
    decreases |sig|
  {
    if sig != [] {
      var before := sig[..|sig| - 1];
      OccursSomewhere(before, t);
      if HasRoot(before, t) {
        var i :| 0 <= i < |before| && before[i].root == t;
        assert sig[i].root == t;
      }
      if HasRoot(sig, t) {
        var i :| 0 <= i < |sig| && sig[i].root == t;
        if i < |before| {
          assert before[i].root == t;
        }
      }
    }
  }

  // ---------- one more entry ----------

  /** What an entry becomes when it is the first of its root. */
  function First(e: CutpointInfo): CutpointInfo {
    e.(refInherited := e.refCount > 1)
  }

  /** What the record of a root becomes with one more entry. */
  function Joined(a: CutpointInfo, e: CutpointInfo): CutpointInfo
    requires NONE in a.fwdSelectors
  {
    a.(refCount := Capped(a.refCount + e.refCount), refInherited := false,
       fwdSelectors := a.fwdSelectors + e.fwdSelectors,
       selCount := |a.fwdSelectors + e.fwdSelectors| - 1, bwdSelector := Lower(a.bwdSelector, e.bwdSelector),
       defines := a.defines + e.defines)
  }

  lemma SelectorsMore(sig: CutpointSignature, e: CutpointInfo, t: nat)
    ensures AllSelectors(sig + [e], t) == AllSelectors(sig, t) + if e.root == t then e.fwdSelectors else {}
    ensures AllDefines(sig + [e], t) == AllDefines(sig, t) + if e.root == t then e.defines else {}
  {
    var more := sig + [e];
    assert more[|sig|] == e;
    assert forall i :: 0 <= i < |sig| ==> more[i] == sig[i];
  }

  lemma LowestMore(sig: CutpointSignature, e: CutpointInfo, t: nat, sel: Word)
    requires IsLowest(sig, t, sel)
    ensures IsLowest(sig + [e], t, if e.root == t then Lower(sel, e.bwdSelector) else sel)
  {
    var more := sig + [e];
    assert more[|sig|] == e;
    if sel != NONE {
      var i :| 0 <= i < |sig| && sig[i].root == t && sig[i].bwdSelector == sel;
      assert more[i].bwdSelector == sel;
    }
  }

  lemma CountsMore(sig: CutpointSignature, e: CutpointInfo, t: nat)
    ensures Occurs(sig + [e], t) == Occurs(sig, t) + if e.root == t then 1 else 0
    ensures TotalRefs(sig + [e], t) == TotalRefs(sig, t) + if e.root == t then e.refCount else 0
    ensures TotalSelectors(sig + [e], t) == TotalSelectors(sig, t) + if e.root == t then e.selCount else 0
  {
    assert (sig + [e])[..|sig|] == sig;
  }

  lemma RepresentsOther(sig: CutpointSignature, e: CutpointInfo, info: CutpointInfo)
    requires Represents(sig, info) && e.root != info.root
    ensures Represents(sig + [e], info)
  {
    SelectorsMore(sig, e, info.root);
    LowestMore(sig, e, info.root, info.bwdSelector);
    CountsMore(sig, e, info.root);
  }

  lemma RepresentsJoined(sig: CutpointSignature, e: CutpointInfo, info: CutpointInfo)
    requires Represents(sig, info) && e.root == info.root && NONE in info.fwdSelectors
    ensures Represents(sig + [e], Joined(info, e))
  {
    SelectorsMore(sig, e, info.root);
    LowestMore(sig, e, info.root, info.bwdSelector);
    CountsMore(sig, e, info.root);
  }

  lemma {:induction false} NothingYet(sig: CutpointSignature, t: nat)
    requires !HasRoot(sig, t)
    ensures TotalRefs(sig, t) == 0 && TotalSelectors(sig, t) == 0 && Occurs(sig, t) == 0
    decreases |sig|
  {
    OccursSomewhere(sig, t);
    if sig != [] {
      var before := sig[..|sig| - 1];
      assert sig[|sig| - 1].root != t;
      assert forall i :: 0 <= i < |before| ==> before[i] == sig[i];
      NothingYet(before, t);
    }
  }

  lemma RepresentsFirst(sig: CutpointSignature, e: CutpointInfo)
    requires !HasRoot(sig, e.root)
    ensures Represents(sig + [e], First(e))
  {
    NothingYet(sig, e.root);
    NothingSelected(sig, e.root);
    CountsMore(sig, e, e.root);
    SelectorsMore(sig, e, e.root);
    LowestMore(sig, e, e.root, NONE);
    assert Lower(NONE, e.bwdSelector) == e.bwdSelector;
  }

  lemma NothingSelected(sig: CutpointSignature, t: nat)
    requires !HasRoot(sig, t)
    ensures AllSelectors(sig, t) == {} && AllDefines(sig, t) == {} && IsLowest(sig, t, NONE)
  {
  }

  lemma HasRootMore(sig: CutpointSignature, e: CutpointInfo, t: nat)
    ensures HasRoot(sig + [e], t) <==> HasRoot(sig, t) || e.root == t
  {
    var more := sig + [e];
    assert more[|sig|] == e;
    if i :| 0 <= i < |sig| && sig[i].root == t {
      assert more[i].root == t;
    }
  }

  lemma NormalFormFirst(sig: CutpointSignature, normal: CutpointSignature, e: CutpointInfo)
    requires NormalFormOf(sig, normal) && !HasRoot(normal, e.root)
    ensures NormalFormOf(sig + [e], normal + [First(e)])
  {
    var normal' := normal + [First(e)];
    forall i | 0 <= i < |normal'|
      ensures Represents(sig + [e], normal'[i])
    {
      if i < |normal| {
        assert normal[i].root != e.root;
        RepresentsOther(sig, e, normal[i]);
      } else {
        assert !HasRoot(sig, e.root);
        RepresentsFirst(sig, e);
      }
    }
    forall t | HasRoot(sig + [e], t)
      ensures HasRoot(normal', t)
    {
      HasRootMore(sig, e, t);
      HasRootMore(normal, First(e), t);
    }
    forall i, j | 0 <= i < j < |normal'|
      ensures normal'[i].root != normal'[j].root
    {
      assert normal'[i] == normal[i];
    }
  }

  lemma NormalFormJoined(sig: CutpointSignature, normal: CutpointSignature, e: CutpointInfo, k: nat)
    requires NormalFormOf(sig, normal) && k < |normal| && normal[k].root == e.root && NONE in normal[k].fwdSelectors
    ensures NormalFormOf(sig + [e], normal[k := Joined(normal[k], e)])
  {
    var normal' := normal[k := Joined(normal[k], e)];
    forall i | 0 <= i < |normal'|
      ensures Represents(sig + [e], normal'[i])
    {
      if i == k {
        RepresentsJoined(sig, e, normal[i]);
      } else {
        assert normal[i].root != e.root;
        RepresentsOther(sig, e, normal[i]);
      }
    }
    forall t | HasRoot(sig + [e], t)
      ensures HasRoot(normal', t)
    {
      HasRootMore(sig, e, t);
      if HasRoot(sig, t) {
        var i :| 0 <= i < |normal| && normal[i].root == t;
        assert normal'[i].root == t;
      } else {
        assert normal'[k].root == t;
      }
    }
  }

  /** What the source asserts when it joins two records. */
  lemma DefinesStayDisjoint(sig: CutpointSignature, n: nat, info: CutpointInfo)
    requires DisjointDefines(sig) && n < |sig| && Represents(sig[..n], info) && info.root == sig[n].root
    ensures info.defines !! sig[n].defines
  {
    forall s | s in info.defines
      ensures s !in sig[n].defines
    {
      var i :| 0 <= i < n && sig[..n][i].root == info.root && s in sig[..n][i].defines;
      assert sig[i].defines !! sig[n].defines;
    }
  }

  /** The first `i` entries of `sig` were handled: `now` starts with `size` records, which `m` finds by their roots. */
  ghost predicate Compacted(sig: CutpointSignature, i: nat, now: CutpointSignature, size: nat, m: map<nat, nat>) {
    && size <= i <= |sig| == |now|
    && now[i..] == sig[i..]
    && NormalFormOf(sig[..i], now[..size]) && ValidSignature(now[..size])
    && (forall t :: t in m ==> m[t] < size && now[m[t]].root == t)
    && (forall j :: 0 <= j < size ==> now[j].root in m)
  }

  lemma CompactedStart(sig: CutpointSignature)
    ensures Compacted(sig, 0, sig, 0, map[])
  {
    assert sig[..0] == [] && NormalFormOf([], []);
  }

  lemma CompactedFirst(sig: CutpointSignature, i: nat, now: CutpointSignature, size: nat, m: map<nat, nat>)
    requires Compacted(sig, i, now, size, m) && ValidSignature(sig) && i < |sig| && now[i].root !in m
    ensures Compacted(sig, i + 1, now[size := First(now[i])], size + 1, m[now[i].root := size])
  {
    var e, next := sig[i], now[size := First(now[i])];
    assert now[i] == now[i..][0] == e;
    assert !HasRoot(now[..size], e.root);
    NormalFormFirst(sig[..i], now[..size], e);
    assert sig[..i + 1] == sig[..i] + [e] && next[..size + 1] == now[..size] + [First(e)];
    assert next[i + 1..] == now[i..][1..] == sig[i + 1..];
  }

  lemma CompactedJoined(sig: CutpointSignature, i: nat, now: CutpointSignature, size: nat, m: map<nat, nat>)
    requires Compacted(sig, i, now, size, m) && DisjointDefines(sig) && i < |sig| && now[i].root in m
    ensures
      var k := m[now[i].root];
      && NONE in now[k].fwdSelectors && now[k].defines !! now[i].defines
      && Compacted(sig, i + 1, now[k := Joined(now[k], now[i])], size, m)
  {
    var e, k := sig[i], m[now[i].root];
    assert now[i] == now[i..][0] == e;
    assert now[..size][k] == now[k];
    DefinesStayDisjoint(sig, i, now[k]);
    NormalFormJoined(sig[..i], now[..size], e, k);
    var next := now[k := Joined(now[k], e)];
    assert sig[..i + 1] == sig[..i] + [e] && next[..size] == now[..size][k := Joined(now[k], e)];
    assert next[i + 1..] == now[i..][1..] == sig[i + 1..];
  }

  /** Joins the records of each root into the first of them, and moves these to the front. */
  method NormalizeSignature(signature: array<CutpointInfo>) returns (size: nat)
    requires ValidSignature(signature[..]) && DisjointDefines(signature[..])
    modifies signature
    ensures size <= signature.Length
    ensures NormalFormOf(old(signature[..]), signature[..size]) && ValidSignature(signature[..size])
  {
    ghost var sig := signature[..];
    var m: map<nat, nat> := map[];
    size := 0;
    CompactedStart(sig);
    for i := 0 to signature.Length
      invariant Compacted(sig, i, signature[..], size, m)
    {
      var e := signature[i];
      if e.root !in m {
        CompactedFirst(sig, i, signature[..], size, m);
        signature[size] := First(e);
        m := m[e.root := size];
        size := size + 1;
      } else {
        CompactedJoined(sig, i, signature[..], size, m);
        var k := m[e.root];
        assert signature[k].defines !! e.defines;
        signature[k] := Joined(signature[k], e);
      }
    }
    assert sig[..|sig|] == sig && signature[..][..size] == signature[..size];
  }
}
