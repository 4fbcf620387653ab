/** Values behind the antichain store: the orders on macro-states and elements, the buckets that list
    elements by state, and what taking, dropping and moving one reference does to them. */
module Buckets {
  import opened StateCache
  import opened TreeAutomata

  type Relation = seq<seq<bool>>
  type Store = map<nat, seq<Addr>>
  type Entries = map<Addr, Entry>

  // ---------- the orders ----------

  predicate Holds(rel: Relation, x: nat, y: nat) {
    x < |rel| && y < |rel[x]| && rel[x][y]
  }

  ghost predicate Reflexive(rel: Relation) {
    && (forall x :: 0 <= x < |rel| ==> |rel[x]| == |rel|)
    && (forall x: nat :: x < |rel| ==> Holds(rel, x, x))
  }

  predicate Linked(rel: Relation, x: nat, y: nat, z: nat) {
    Holds(rel, x, y) && Holds(rel, y, z)
  }

  ghost predicate Preorder(rel: Relation) {
    && Reflexive(rel)
    && (forall x: nat, y: nat, z: nat :: Linked(rel, x, y, z) ==> Holds(rel, x, z))
  }

  /** Every state of `x` is simulated by one of `y`. */
  predicate MacroLte(rel: Relation, x: set<nat>, y: set<nat>) {
    forall i :: i in x ==> exists j :: j in y && Holds(rel, i, j)
  }

  /** `d` makes `e` superfluous. */
  predicate Below(rel: Relation, d: Element, e: Element) {
    Holds(rel, e.0, d.0) && MacroLte(rel, d.1, e.1)
  }

  predicate InRange(rel: Relation, e: Element) {
    e.0 < |rel| && forall q :: q in e.1 ==> q < |rel|
  }

  lemma MacroTransitive(rel: Relation, x: set<nat>, y: set<nat>, z: set<nat>)
    requires Preorder(rel) && MacroLte(rel, x, y) && MacroLte(rel, y, z)
    ensures MacroLte(rel, x, z)
  {
    forall i | i in x
      ensures exists k :: k in z && Holds(rel, i, k)
    {
      var j :| j in y && Holds(rel, i, j);
      var k :| k in z && Holds(rel, j, k);
      assert Linked(rel, i, j, k);
    }
  }

  lemma BelowTransitive(rel: Relation, c: Element, d: Element, e: Element)
    requires Preorder(rel) && Below(rel, c, d) && Below(rel, d, e)
    ensures Below(rel, c, e)
  {
    MacroTransitive(rel, c.1, d.1, e.1);
    assert Linked(rel, e.0, d.0, c.0);
  }

  lemma BelowReflexive(rel: Relation, e: Element)
    requires Reflexive(rel) && InRange(rel, e)
    ensures Below(rel, e, e)
  {}

  ghost predicate Dominated(rel: Relation, es: set<Element>, e: Element) {
    exists d :: d in es && Below(rel, d, e)
  }

  // ---------- what the buckets hold ----------

  predicate Stored(ac: Store, q: nat, a: Addr) {
    q in ac && a in ac[q]
  }

  ghost predicate NoRepeat(s: seq<Addr>) {
    forall i, j :: 0 <= i < j < |s| ==> s[i] != s[j]
  }

  /** Addresses are live and listed once per bucket. */
  ghost predicate Sound(st: Entries, ac: Store) {
    && (forall q :: q in ac ==> NoRepeat(ac[q]))
    && (forall q, a :: Stored(ac, q, a) ==> a in st)
  }

  ghost predicate NoEmptyBucket(ac: Store) {
    forall q :: q in ac ==> ac[q] != []
  }

  ghost function Holders(ac: Store, a: Addr): set<nat> {
    set q | q in ac && a in ac[q]
  }

  /** Each count is the number of places that refer to the macro-state, `extra` being held by the caller. */
  ghost predicate Counted(st: Entries, ac: Store, bc: Store, extra: multiset<Addr>) {
    forall a :: a in st ==> st[a].count == |Holders(ac, a)| + |Holders(bc, a)| + extra[a]
  }

  ghost predicate References(st: Entries, ac: Store, bc: Store, extra: multiset<Addr>) {
    && Sound(st, ac) && Sound(st, bc)
    && Counted(st, ac, bc, extra)
    && (forall a :: a in extra ==> a in st)
  }

  ghost function Elements(st: Entries, ac: Store): set<Element> {
    set q, a | q in ac && a in ac[q] && a in st :: Item(st, q, a)
  }

  ghost function Item(st: Entries, q: nat, a: Addr): Element
    requires a in st
  {
    (q, st[a].key)
  }

  ghost predicate AllInRange(rel: Relation, es: set<Element>) {
    forall e :: e in es ==> InRange(rel, e)
  }

  /** No element of `es` is below another one. */
  ghost predicate Incomparable(rel: Relation, es: set<Element>) {
    forall d, e {:trigger Below(rel, d, e)} :: d in es && e in es && d != e ==> !Below(rel, d, e)
  }

  ghost predicate Coherent(rel: Relation, st: Entries, verdicts: Verdicts) {
    forall p :: p in verdicts ==>
      p.0 in st && p.1 in st && verdicts[p] == MacroLte(rel, st[p.0].key, st[p.1].key)
  }

  ghost predicate KeysInRange(rel: Relation, st: Entries) {
    forall a, q :: a in st && q in st[a].key ==> q < |rel|
  }

  /** The live keys of `small` are those of `big`. */
  ghost predicate KeysFrom(small: Entries, big: Entries) {
    forall a :: a in small ==> a in big && small[a].key == big[a].key
  }

  ghost function Kept(rel: Relation, es: set<Element>, e: Element): set<Element> {
    set d | d in es && !Below(rel, e, d)
  }

  lemma ElementsKept(st: Entries, st': Entries, ac: Store)
    requires Sound(st, ac) && Sound(st', ac) && KeysFrom(st', st)
    ensures Elements(st', ac) == Elements(st, ac)
  {
    forall e: Element
      ensures e in Elements(st, ac) <==> e in Elements(st', ac)
    {
      if e in Elements(st, ac) {
        var a :| Stored(ac, e.0, a) && a in st && st[a].key == e.1;
        assert a in st';
      }
      if e in Elements(st', ac) {
        var a :| Stored(ac, e.0, a) && a in st' && st'[a].key == e.1;
        assert a in st;
      }
    }
  }

  function DropAt(s: seq<Addr>, k: nat): seq<Addr>
    requires k < |s|
  {
    s[..k] + s[k + 1..]
  }

  /** Dropping one listing takes one holder from that address and none from the others. */
  lemma DropListing(ac: Store, r: Store, q: nat, k: nat)
    requires q in ac && k < |ac[q]| && NoRepeat(ac[q]) && r == ac[q := DropAt(ac[q], k)]
    ensures NoRepeat(r[q])
    ensures forall p: nat, a: Addr :: Stored(r, p, a) <==> Stored(ac, p, a) && (p, a) != (q, ac[q][k])
    ensures |Holders(r, ac[q][k])| == |Holders(ac, ac[q][k])| - 1
    ensures forall a :: a != ac[q][k] ==> Holders(r, a) == Holders(ac, a)
  {
    var s := ac[q];
    var d := r[q];
    forall a
      ensures a in d <==> a in s && a != s[k]
    {
      if a in s && a != s[k] {
        var i :| 0 <= i < |s| && s[i] == a;
        assert d[if i < k then i else i - 1] == a;
      }
    }
    assert q in Holders(ac, s[k]);
    assert Holders(r, s[k]) == Holders(ac, s[k]) - {q};
  }

  lemma NoHolders(ac: Store, a: Addr)
    requires |Holders(ac, a)| == 0
    ensures forall p: nat :: !Stored(ac, p, a)
  {
    forall p: nat
      ensures !Stored(ac, p, a)
    {
      assert p !in Holders(ac, a);
    }
  }

  /** What is stored once a reference to `a` has been given up. */
  function Released(st: Entries, a: Addr): Entries
    requires a in st
  {
    if st[a].count > 1 then st[a := Entry(st[a].key, st[a].count - 1)] else st - {a}
  }

  lemma ReleaseCoherent(rel: Relation, st: Entries, verdicts: Verdicts, a: Addr)
    requires a in st && Coherent(rel, st, verdicts) && KeysInRange(rel, st)
    ensures st[a].count > 1 ==> Coherent(rel, Released(st, a), verdicts)
    ensures st[a].count <= 1 ==> Coherent(rel, Released(st, a), Without(verdicts, a))
    ensures KeysInRange(rel, Released(st, a)) && KeysFrom(Released(st, a), st)
  {}

  /** Releasing the reference of a dropped listing keeps all counts; an entry freed by it is listed nowhere. */
  lemma DropCounted(st: Entries, ac: Store, r: Store, bc: Store, extra: multiset<Addr>, i: nat, k: nat)
    requires References(st, ac, bc, extra)
    requires i in ac && k < |ac[i]| && r == ac[i := DropAt(ac[i], k)] && ac[i][k] in st
    ensures References(Released(st, ac[i][k]), r, bc, extra)
  {
    var gone := ac[i][k];
    DropListing(ac, r, i, k);
    if st[gone].count <= 1 {
      assert |Holders(r, gone)| == 0 && |Holders(bc, gone)| == 0 && extra[gone] == 0;
      NoHolders(r, gone);
      NoHolders(bc, gone);
    }
  }

  lemma EmptyBucketRefers(st: Entries, ac: Store, i: nat, bc: Store, extra: multiset<Addr>)
    requires References(st, ac, bc, extra) && i in ac && ac[i] == []
    ensures References(st, ac - {i}, bc, extra)
  {
    forall q, a | Stored(ac - {i}, q, a)
      ensures a in st
    {
      assert Stored(ac, q, a);
    }
    forall a
      ensures Holders(ac - {i}, a) == Holders(ac, a)
    {}
  }

  /** The part of a bucket for state `i` that `e` does not make superfluous, in order. */
  ghost function Survivors(rel: Relation, st: Entries, i: nat, e: Element, s: seq<Addr>): (r: seq<Addr>)
    ensures forall a :: a in r <==> a in s && !(a in st && Below(rel, e, Item(st, i, a)))
  {
    if s == [] then [] else
      var a := s[|s| - 1];
      var r := Survivors(rel, st, i, e, s[..|s| - 1]);
      if a in st && Below(rel, e, Item(st, i, a)) then r else r + [a]
  }

  /** `done` listings of bucket `i` have been looked at; `k` of them remain. */
  ghost predicate Refining(rel: Relation, st: Entries, ac: Store, r: Store, i: nat, e: Element, done: nat, k: nat)
    requires i in ac
  {
    && done <= |ac[i]|
    && k == |Survivors(rel, st, i, e, ac[i][..done])|
    && r == ac[i := Survivors(rel, st, i, e, ac[i][..done]) + ac[i][done..]]
  }

  lemma RefiningStart(rel: Relation, st: Entries, ac: Store, i: nat, e: Element)
    requires i in ac
    ensures Refining(rel, st, ac, ac, i, e, 0, 0)
  {
    assert ac[i][..0] == [] && [] + ac[i][0..] == ac[i];
  }

  lemma RefiningListed(rel: Relation, st: Entries, now: Entries, ac: Store, r: Store, i: nat, e: Element, done: nat,
                       k: nat, bc: Store, extra: multiset<Addr>)
    requires i in ac && Refining(rel, st, ac, r, i, e, done, k) && k < |r[i]| && References(now, r, bc, extra)
    ensures done < |ac[i]| && r[i][k] == ac[i][done] && r[i][k] in now
  {
    assert Stored(r, i, r[i][k]);
  }

  lemma RefiningStep(rel: Relation, st: Entries, ac: Store, r: Store, r': Store, i: nat, e: Element, done: nat, k: nat,
                     dropped: bool)
    requires i in ac && Refining(rel, st, ac, r, i, e, done, k) && k < |r[i]| && ac[i][done] in st
    requires dropped <==> Below(rel, e, Item(st, i, ac[i][done]))
    requires r' == if dropped then r[i := DropAt(r[i], k)] else r
    ensures Refining(rel, st, ac, r', i, e, done + 1, if dropped then k else k + 1)
  {
    assert ac[i][..done + 1][..done] == ac[i][..done];
    var kept := Survivors(rel, st, i, e, ac[i][..done]);
    if dropped {
      assert DropAt(kept + ac[i][done..], k) == kept + ac[i][done + 1..];
    } else {
      assert kept + ac[i][done..] == (kept + [ac[i][done]]) + ac[i][done + 1..];
    }
  }

  lemma RefiningDone(rel: Relation, st: Entries, ac: Store, r: Store, i: nat, e: Element, done: nat, k: nat)
    requires i in ac && Refining(rel, st, ac, r, i, e, done, k) && k >= |r[i]|
    ensures r == ac[i := Survivors(rel, st, i, e, ac[i])]
  {
    assert ac[i][..done] == ac[i] && Survivors(rel, st, i, e, ac[i]) + ac[i][done..] == Survivors(rel, st, i, e, ac[i]);
  }

  ghost function Refined(rel: Relation, st: Entries, ac: Store, i: nat, e: Element): Store {
    if i !in ac then ac
    else
      var s := Survivors(rel, st, i, e, ac[i]);
      if s == [] then ac - {i} else ac[i := s]
  }

  lemma DropRefined(rel: Relation, st: Entries, ac: Store, r: Store, i: nat, e: Element)
    requires i in ac && r == ac[i := Survivors(rel, st, i, e, ac[i])] && r[i] == []
    ensures r - {i} == Refined(rel, st, ac, i, e)
  {
    assert r - {i} == ac - {i};
  }

  /** The buckets of the states below `n` have been refined, the others not touched. */
  ghost predicate Swept(rel: Relation, st: Entries, ac: Store, r: Store, n: nat, e: Element) {
    && (forall p :: p in ac && p >= n ==> p in r && r[p] == ac[p])
    && (forall p: nat, b: Addr :: Stored(r, p, b) <==>
         Stored(ac, p, b) && !(p < n && b in st && Below(rel, e, Item(st, p, b))))
  }

  lemma SweepBucket(rel: Relation, st: Entries, now: Entries, ac: Store, r: Store, i: nat, e: Element)
    requires Sound(st, ac) && Sound(now, r) && KeysFrom(now, st)
    requires NoEmptyBucket(r) && Swept(rel, st, ac, r, i, e)
    ensures Swept(rel, st, ac, if Holds(rel, i, e.0) && i in r then Refined(rel, now, r, i, e) else r, i + 1, e)
    ensures i in r ==> NoEmptyBucket(Refined(rel, now, r, i, e))
  {
    var r' := if Holds(rel, i, e.0) && i in r then Refined(rel, now, r, i, e) else r;
    forall p: nat, b: Addr
      ensures Stored(r', p, b) <==> Stored(ac, p, b) && !(p < i + 1 && b in st && Below(rel, e, Item(st, p, b)))
    {
      assert Stored(r, p, b) ==> b in now && now[b].key == st[b].key;
    }
  }

  lemma SweptElements(rel: Relation, st: Entries, now: Entries, ac: Store, r: Store, e: Element)
    requires Sound(st, ac) && Sound(now, r) && KeysFrom(now, st)
    requires AllInRange(rel, Elements(st, ac)) && Swept(rel, st, ac, r, |rel|, e)
    ensures Elements(now, r) == Kept(rel, Elements(st, ac), e)
  {
    forall d: Element
      ensures d in Elements(now, r) <==> d in Kept(rel, Elements(st, ac), e)
    {
      if d in Elements(now, r) {
        var b :| Stored(r, d.0, b) && b in now && now[b].key == d.1;
        assert Stored(ac, d.0, b) && Item(st, d.0, b) == d;
      }
      if d in Kept(rel, Elements(st, ac), e) {
        var b :| Stored(ac, d.0, b) && b in st && st[b].key == d.1;
        assert d in Elements(st, ac);
        assert Stored(r, d.0, b);
      }
    }
  }

  // ---------- taking, storing and moving one reference ----------

  function Put(ac: Store, q: nat, a: Addr): Store {
    ac[q := (if q in ac then ac[q] else []) + [a]]
  }

  function DropFirst(ac: Store, q: nat): Store
    requires q in ac && ac[q] != []
  {
    if |ac[q]| == 1 then ac - {q} else ac[q := ac[q][1..]]
  }

  function Taken(st: Entries, a: Addr, key: set<nat>): Entries {
    if a in st then st[a := Entry(key, st[a].count + 1)] else st[a := Entry(key, 1)]
  }

  lemma ReferencesSwap(st: Entries, ac: Store, bc: Store, extra: multiset<Addr>)
    ensures References(st, ac, bc, extra) <==> References(st, bc, ac, extra)
  {}

  lemma TakeReference(rel: Relation, st: Entries, verdicts: Verdicts, ac: Store, bc: Store, a: Addr, key: set<nat>)
    requires References(st, ac, bc, multiset{}) && Coherent(rel, st, verdicts) && KeysInRange(rel, st)
    requires a in st ==> st[a].key == key
    requires forall q :: q in key ==> q < |rel|
    ensures References(Taken(st, a, key), ac, bc, multiset{a})
    ensures Coherent(rel, Taken(st, a, key), verdicts) && KeysInRange(rel, Taken(st, a, key))
    ensures Elements(Taken(st, a, key), ac) == Elements(st, ac) && Elements(Taken(st, a, key), bc) == Elements(st, bc)
  {
    var st' := Taken(st, a, key);
    if a !in st {
      forall q: nat
        ensures q !in Holders(ac, a) && q !in Holders(bc, a)
      {
        assert !Stored(ac, q, a) && !Stored(bc, q, a);
      }
      assert Holders(ac, a) == {} && Holders(bc, a) == {};
    }
    ElementsKept(st', st, ac);
    ElementsKept(st', st, bc);
  }

  lemma GiveBackReference(st: Entries, ac: Store, bc: Store, a: Addr)
    requires References(st, ac, bc, multiset{a})
    ensures a in st && References(Released(st, a), ac, bc, multiset{})
    ensures Elements(Released(st, a), ac) == Elements(st, ac) && Elements(Released(st, a), bc) == Elements(st, bc)
  {
    assert a in multiset{a};
    if st[a].count <= 1 {
      NoHolders(ac, a);
      NoHolders(bc, a);
    }
    ElementsKept(st, Released(st, a), ac);
    ElementsKept(st, Released(st, a), bc);
  }

  lemma PutListing(ac: Store, q: nat, a: Addr)
    requires !Stored(ac, q, a) && forall p :: p in ac ==> NoRepeat(ac[p])
    ensures forall p :: p in Put(ac, q, a) ==> NoRepeat(Put(ac, q, a)[p])
    ensures forall p: nat, b: Addr :: Stored(Put(ac, q, a), p, b) <==> Stored(ac, p, b) || (p, b) == (q, a)
    ensures |Holders(Put(ac, q, a), a)| == |Holders(ac, a)| + 1
    ensures forall b :: b != a ==> Holders(Put(ac, q, a), b) == Holders(ac, b)
  {
    assert Holders(Put(ac, q, a), a) == Holders(ac, a) + {q};
  }

  lemma DropFirstListing(ac: Store, q: nat)
    requires q in ac && ac[q] != [] && forall p :: p in ac ==> NoRepeat(ac[p])
    ensures forall p :: p in DropFirst(ac, q) ==> NoRepeat(DropFirst(ac, q)[p])
    ensures forall p: nat, b: Addr :: Stored(DropFirst(ac, q), p, b) <==> Stored(ac, p, b) && (p, b) != (q, ac[q][0])
    ensures |Holders(DropFirst(ac, q), ac[q][0])| == |Holders(ac, ac[q][0])| - 1
    ensures forall b :: b != ac[q][0] ==> Holders(DropFirst(ac, q), b) == Holders(ac, b)
  {
    var a, r := ac[q][0], DropFirst(ac, q);
    assert ac[q] == [a] + ac[q][1..];
    assert q in Holders(ac, a);
    assert Holders(r, a) == Holders(ac, a) - {q};
  }

  /** The held reference becomes that of a new listing. */
  lemma PutReference(st: Entries, ac: Store, bc: Store, q: nat, a: Addr)
    requires References(st, ac, bc, multiset{a}) && !Stored(ac, q, a)
    ensures a in st && References(st, Put(ac, q, a), bc, multiset{})
    ensures Elements(st, Put(ac, q, a)) == Elements(st, ac) + {Item(st, q, a)}
  {
    assert a in multiset{a};
    PutListing(ac, q, a);
    PutElements(st, ac, q, a);
  }

  lemma PutElements(st: Entries, ac: Store, q: nat, a: Addr)
    requires a in st && forall p: nat, b: Addr :: Stored(Put(ac, q, a), p, b) <==> Stored(ac, p, b) || (p, b) == (q, a)
    ensures Elements(st, Put(ac, q, a)) == Elements(st, ac) + {Item(st, q, a)}
  {
    var r := Put(ac, q, a);
    assert Stored(r, q, a);
    forall e: Element
      ensures e in Elements(st, r) <==> e in Elements(st, ac) || e == Item(st, q, a)
    {
      if e in Elements(st, r) {
        var b :| Stored(r, e.0, b) && b in st && st[b].key == e.1;
      }
      if e in Elements(st, ac) {
        var b :| Stored(ac, e.0, b) && b in st && st[b].key == e.1;
        assert Stored(r, e.0, b);
      }
    }
  }

  /** A listing moves from one store to the other with its reference. */
  lemma MoveReference(st: Entries, ac: Store, bc: Store, q: nat)
    requires References(st, ac, bc, multiset{}) && q in bc && bc[q] != [] && !Stored(ac, q, bc[q][0])
    requires forall b :: b in st && bc[q][0] in st && st[b].key == st[bc[q][0]].key ==> b == bc[q][0]
    ensures bc[q][0] in st
    ensures References(st, Put(ac, q, bc[q][0]), DropFirst(bc, q), multiset{})
    ensures Elements(st, Put(ac, q, bc[q][0])) == Elements(st, ac) + {Item(st, q, bc[q][0])}
    ensures Elements(st, DropFirst(bc, q)) == Elements(st, bc) - {Item(st, q, bc[q][0])}
  {
    var a, r := bc[q][0], DropFirst(bc, q);
    assert Stored(bc, q, a);
    PutListing(ac, q, a);
    DropFirstListing(bc, q);
    PutElements(st, ac, q, a);
    DropFirstElements(st, bc, r, q, a);
  }

  lemma DropFirstElements(st: Entries, bc: Store, r: Store, q: nat, a: Addr)
    requires a in st && forall p: nat, b: Addr :: Stored(r, p, b) <==> Stored(bc, p, b) && (p, b) != (q, a)
    requires forall b :: b in st && st[b].key == st[a].key ==> b == a
    ensures Elements(st, r) == Elements(st, bc) - {Item(st, q, a)}
  {
    forall e: Element
      ensures e in Elements(st, r) <==> e in Elements(st, bc) && e != Item(st, q, a)
    {
      if e in Elements(st, r) {
        var b :| Stored(r, e.0, b) && b in st && st[b].key == e.1;
        assert Stored(bc, e.0, b);
      }
      if e in Elements(st, bc) && e != Item(st, q, a) {
        var b :| Stored(bc, e.0, b) && b in st && st[b].key == e.1;
        assert Stored(r, e.0, b);
      }
    }
  }

  /** What the two stores hold is an antichain, each element in one of them. */
  ghost predicate Minimal(rel: Relation, ps: set<Element>, ns: set<Element>) {
    && AllInRange(rel, ps + ns)
    && ps !! ns
    && Incomparable(rel, ps + ns)
  }

  /** Adding an element that nothing dominates, once what it dominates is gone, keeps an antichain. */
  lemma AdmitIncomparable(rel: Relation, ps: set<Element>, ns: set<Element>, e: Element)
    requires Reflexive(rel) && InRange(rel, e) && Minimal(rel, ps, ns) && !Dominated(rel, ps + ns, e)
    ensures Minimal(rel, Kept(rel, ps, e), Kept(rel, ns, e) + {e})
    ensures e !in Kept(rel, ns, e)
  {
    BelowReflexive(rel, e);
    forall d | d in ps + ns
      ensures !Below(rel, d, e)
    {}
  }

  // ---------- offering elements ----------

  ghost function Given(post: seq<Element>): set<Element> {
    set e | e in post
  }

  /** What a number of offers may do: nothing covered before is lost, what was given is covered, nothing else comes
      in, what was processed does not become pending, and the stores change only if something given was not covered. */
  ghost predicate Offered(rel: Relation, ps: set<Element>, ns: set<Element>, ps': set<Element>, ns': set<Element>,
                          given: set<Element>) {
    && ps' <= ps && ns' !! ps
    && ps' + ns' <= ps + ns + given
    && (forall e :: Dominated(rel, ps + ns, e) || e in given ==> Dominated(rel, ps' + ns', e))
    && ((ps' == ps && ns' == ns) || exists e :: e in given && !Dominated(rel, ps + ns, e))
  }

  /** An element is stored unless a stored one already covers it; what it covers itself goes. */
  ghost predicate Admitted(rel: Relation, ps: set<Element>, ns: set<Element>, ps': set<Element>, ns': set<Element>,
                           e: Element) {
    if Dominated(rel, ps + ns, e) then ps' == ps && ns' == ns
    else ps' == Kept(rel, ps, e) && ns' == Kept(rel, ns, e) + {e}
  }

  lemma OfferNone(rel: Relation, ps: set<Element>, ns: set<Element>)
    requires Minimal(rel, ps, ns)
    ensures Offered(rel, ps, ns, ps, ns, Given([]))
  {}

  lemma OfferOne(rel: Relation, ps: set<Element>, ns: set<Element>, p: set<Element>, n: set<Element>,
                 ps': set<Element>, ns': set<Element>, post: seq<Element>, e: Element)
    requires Preorder(rel) && InRange(rel, e)
    requires Offered(rel, ps, ns, p, n, Given(post)) && Admitted(rel, p, n, ps', ns', e)
    ensures Offered(rel, ps, ns, ps', ns', Given(post + [e]))
  {
    AdmitCovers(rel, p, n, e);
    BelowReflexive(rel, e);
    assert e in ps ==> Dominated(rel, ps + ns, e);
    assert Given(post + [e]) == Given(post) + {e};
    if !Dominated(rel, p + n, e) {
      assert !Dominated(rel, ps + ns, e);
    }
  }

  /** Admitting an element keeps covered what was covered. */
  lemma AdmitCovers(rel: Relation, ps: set<Element>, ns: set<Element>, e: Element)
    requires Preorder(rel) && InRange(rel, e)
    ensures forall d :: Dominated(rel, ps + ns, d) || d == e ==>
      Dominated(rel, Kept(rel, ps, e) + (Kept(rel, ns, e) + {e}), d)
  {
    BelowReflexive(rel, e);
    var after := Kept(rel, ps, e) + (Kept(rel, ns, e) + {e});
    assert e in after;
    forall d | Dominated(rel, ps + ns, d)
      ensures Dominated(rel, after, d)
    {
      var c :| c in ps + ns && Below(rel, c, d);
      if Below(rel, e, c) {
        BelowTransitive(rel, e, c, d);
      } else {
        assert c in after;
      }
    }
  }

  lemma StillHeld(st: Entries, ac: Store, bc: Store, extra: multiset<Addr>, a: Addr)
    requires References(st, ac, bc, extra) && extra[a] > 0
    ensures a in st
  {
    assert a in extra;
  }

  lemma NotStored(st: Entries, ac: Store, q: nat, a: Addr)
    requires a in st && Item(st, q, a) !in Elements(st, ac)
    ensures !Stored(ac, q, a)
  {}

  lemma PendingListed(st: Entries, ac: Store)
    requires Sound(st, ac) && NoEmptyBucket(ac)
    ensures ac == map[] <==> Elements(st, ac) == {}
  {
    if ac != map[] {
      var q :| q in ac;
      assert Stored(ac, q, ac[q][0]);
      assert Item(st, q, ac[q][0]) in Elements(st, ac);
    }
  }

  lemma {:induction false} LowestExists(s: set<nat>, some: nat, n: nat)
    requires some in s && n <= some && forall p :: p in s ==> n <= p
    ensures exists q :: q in s && forall p :: p in s ==> q <= p
    decreases some - n
  {
    if n !in s {
      LowestExists(s, some, n + 1);
    }
  }

  /** Moving the first element of a bucket from one store to the other keeps the references and the antichain. */
  lemma MoveMinimal(rel: Relation, st: Entries, ac: Store, bc: Store, q: nat)
    requires References(st, ac, bc, multiset{}) && NoEmptyBucket(ac) && NoEmptyBucket(bc) && q in bc
    requires Minimal(rel, Elements(st, ac), Elements(st, bc)) && forall p :: p in bc ==> q <= p
    requires forall b :: b in st && bc[q][0] in st && st[b].key == st[bc[q][0]].key ==> b == bc[q][0]
    ensures bc[q][0] in st
    ensures References(st, Put(ac, q, bc[q][0]), DropFirst(bc, q), multiset{})
    ensures NoEmptyBucket(Put(ac, q, bc[q][0])) && NoEmptyBucket(DropFirst(bc, q))
    ensures Item(st, q, bc[q][0]) in Elements(st, bc) && Stored(Put(ac, q, bc[q][0]), q, bc[q][0])
    ensures Elements(st, Put(ac, q, bc[q][0])) == Elements(st, ac) + {Item(st, q, bc[q][0])}
    ensures Elements(st, DropFirst(bc, q)) == Elements(st, bc) - {Item(st, q, bc[q][0])}
    ensures Minimal(rel, Elements(st, Put(ac, q, bc[q][0])), Elements(st, DropFirst(bc, q)))
    ensures forall e :: e in Elements(st, bc) ==> q <= e.0
  {
    var a := bc[q][0];
    assert Stored(bc, q, a);
    assert Item(st, q, a) in Elements(st, bc);
    NotStored(st, ac, q, a);
    MoveReference(st, ac, bc, q);
    assert Elements(st, ac) + {Item(st, q, a)} + (Elements(st, bc) - {Item(st, q, a)}) ==
      Elements(st, ac) + Elements(st, bc);
    PutListing(ac, q, a);
    assert Put(ac, q, a)[q] != [];
  }
}
