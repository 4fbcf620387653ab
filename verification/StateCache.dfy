/** Reference-counted storage of macro-states under reusable addresses, and a memo table of a binary
    operation over those addresses. */
module StateCache {
  import Collections

  type Addr = nat

  datatype Entry = Entry(key: set<nat>, count: nat)

  type Verdicts = map<(Addr, Addr), bool>
  type Index = map<Addr, set<(Addr, Addr)>>

  predicate Mentions(p: (Addr, Addr), k: Addr) {
    p.0 == k || p.1 == k
  }

  function Listing(index: Index, k: Addr): set<(Addr, Addr)> {
    if k in index then index[k] else {}
  }

  /** The index lists under each key exactly the stored pairs that mention it. */
  ghost predicate Indexed(store: Verdicts, index: Index) {
    && (forall p :: p in store ==> p.0 != p.1)
    && (forall k :: Listing(index, k) == set p | p in store && Mentions(p, k))
  }

  function Listed(index: Index, k: Addr, p: (Addr, Addr)): (r: Index)
    ensures forall j :: Listing(r, j) == if j == k then Listing(index, j) + {p} else Listing(index, j)
  {
    index[k := Listing(index, k) + {p}]
  }

  function Unlisted(index: Index, k: Addr, p: (Addr, Addr)): (r: Index)
    requires k in index
    ensures r.Keys == index.Keys
    ensures forall j :: Listing(r, j) == if j == k then Listing(index, j) - {p} else Listing(index, j)
  {
    index[k := index[k] - {p}]
  }

  function Without(store: Verdicts, k: Addr): Verdicts {
    map p | p in store && !Mentions(p, k) :: store[p]
  }

  /** Memoised verdicts about pairs of addresses, indexed by each address they mention. */
  class CachedBinaryOp {
    var store: Verdicts
    var storeMap: Index

    ghost predicate Valid()
      reads this
    {
      Indexed(store, storeMap)
    }

    constructor ()
      ensures Valid() && store == map[] && storeMap == map[]
    {
      store, storeMap := map[], map[];
    }

    /** Answers from the table, computing and recording the verdict on a miss. */
    method Lookup(x: Addr, y: Addr, f: (Addr, Addr) --> bool) returns (verdict: bool)
      requires Valid() && x != y && f.requires(x, y)
      modifies this
      ensures Valid()
      ensures store == if (x, y) in old(store) then old(store) else old(store)[(x, y) := f(x, y)]
      ensures verdict == store[(x, y)]
    {
      if (x, y) !in store {
        store := store[(x, y) := f(x, y)];
        storeMap := Listed(storeMap, x, (x, y));
        storeMap := Listed(storeMap, y, (x, y));
      }
      verdict := store[(x, y)];
    }

    /** Forgets the verdict about one pair. */
    method Invalidate(x: Addr, y: Addr)
      requires Valid()
      modifies this
      ensures Valid()
      ensures store == old(store) - {(x, y)}
    {
      if (x, y) !in store {
        return;
      }
      assert (x, y) in Listing(storeMap, x) && (x, y) in Listing(storeMap, y);
      storeMap := Unlisted(storeMap, x, (x, y));
      storeMap := Unlisted(storeMap, y, (x, y));
      store := store - {(x, y)};
    }

    /** Forgets every verdict that mentions `x`, and `x` itself. */
    method InvalidateKey(x: Addr)
      requires Valid()
      modifies this
      ensures Valid()
      ensures store == Without(old(store), x) && x !in storeMap
    {
      if x !in storeMap {
        assert forall p :: p in store && Mentions(p, x) ==> p in Listing(storeMap, x);
        assert store == Without(store, x);
        return;
      }
      var pairs := storeMap[x];
      assert pairs == Listing(storeMap, x);
      var todo := pairs;
      while todo != {}
        invariant todo <= pairs && x in storeMap
        invariant forall p :: p in store <==> p in old(store) && p !in pairs - todo
        invariant forall p :: p in store ==> store[p] == old(store)[p]
        invariant forall k :: k != x ==> Listing(storeMap, k) == set p | p in store && Mentions(p, k)
        decreases todo
      {
        var p :| p in todo;
        var other := if x == p.0 then p.1 else p.0;
        assert p in store && Mentions(p, other) && p in Listing(storeMap, other);
        storeMap := Unlisted(storeMap, other, p);
        store := store - {p};
        todo := todo - {p};
      }
      ghost var rest := storeMap;
      storeMap := storeMap - {x};
      assert forall p :: p in store ==> !Mentions(p, x);
      assert forall k :: Listing(storeMap, k) == if k == x then {} else Listing(rest, k);
    }
  }

  /** Macro-states by address; a macro-state has one address while it is live. */
  class Cache {
    var store: map<Addr, Entry>
    var place: map<set<nat>, Addr>

    ghost predicate Valid()
      reads this
    {
      && (forall a :: a in store ==> store[a].count > 0)
      && (forall a :: a in store ==> store[a].key in place && place[store[a].key] == a)
      && (forall k :: k in place ==> place[k] in store && store[place[k]].key == k)
    }

    constructor ()
      ensures Valid() && store == map[]
    {
      store, place := map[], map[];
    }

    /** Finds or stores `key` and takes a reference; a new entry may get any address not in use. */
    method Lookup(key: set<nat>) returns (a: Addr)
      requires Valid()
      modifies this
      ensures Valid()
      ensures a in store && store[a].key == key
      ensures a in old(store) ==>
        old(store)[a].key == key && store == old(store)[a := Entry(key, old(store)[a].count + 1)]
      ensures a !in old(store) ==> store == old(store)[a := Entry(key, 1)]
    {
      if key in place {
        a := place[key];
      } else {
        Collections.UnusedNumber(store.Keys);
        a :| a !in store;
        place := place[key := a];
        store := store[a := Entry(key, 0)];
      }
      AddRef(a);
    }

    method AddRef(a: Addr)
      requires a in store
      modifies this`store
      ensures store == old(store)[a := Entry(old(store)[a].key, old(store)[a].count + 1)]
    {
      store := store[a := store[a].(count := store[a].count + 1)];
    }

    /** Gives up a reference.  With the last one the listener forgets the address before it is freed. */
    method Release(a: Addr, listener: CachedBinaryOp) returns (left: nat)
      requires Valid() && listener.Valid() && a in store
      modifies this, listener
      ensures Valid() && listener.Valid()
      ensures left == old(store)[a].count - 1
      ensures store == if left > 0 then old(store)[a := Entry(old(store)[a].key, left)] else old(store) - {a}
      ensures listener.store == if left > 0 then old(listener.store) else Without(old(listener.store), a)
    {
      if store[a].count > 1 {
        left := store[a].count - 1;
        store := store[a := store[a].(count := left)];
        return;
      }
      listener.InvalidateKey(a);
      place := place - {store[a].key};
      store := store - {a};
      left := 0;
    }
  }

  /** A macro-state has one place. */
  lemma PlacedOnce(store: map<Addr, Entry>, place: map<set<nat>, Addr>, a: Addr)
    requires a in store && forall b :: b in store ==> store[b].key in place && place[store[b].key] == b
    ensures forall b :: b in store && store[b].key == store[a].key ==> b == a
  {}
}
