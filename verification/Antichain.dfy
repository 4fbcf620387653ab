/** The store of processed and pending elements of an inclusion check: (state, macro-state) pairs with
    shared, reference-counted macro-states, of which only the minimal ones are kept. */
module Antichain {
  import opened Buckets
  import opened StateCache
  import opened TreeAutomata

  class Antichain {
    const rel: Relation
    const stateCache: Cache
    const cachedLte: CachedBinaryOp
    var processed: Store
    var next: Store

    /** Cached verdicts are true of live macro-states. */
    ghost predicate CacheOk()
      reads stateCache, cachedLte
    {
      && Reflexive(rel) && stateCache.Valid() && cachedLte.Valid()
      && Coherent(rel, stateCache.store, cachedLte.store)
      && KeysInRange(rel, stateCache.store)
    }

    ghost function Processed(): set<Element>
      reads this, stateCache
    {
      Elements(stateCache.store, processed)
    }

    ghost function Pending(): set<Element>
      reads this, stateCache
    {
      Elements(stateCache.store, next)
    }

    ghost predicate Valid()
      reads this, stateCache, cachedLte
    {
      && Preorder(rel) && CacheOk() && References(stateCache.store, processed, next, multiset{})
      && NoEmptyBucket(processed) && NoEmptyBucket(next)
      && Minimal(rel, Processed(), Pending())
    }

    constructor (rel: Relation)
      requires Preorder(rel)
      ensures Valid() && this.rel == rel && processed == map[] && next == map[]
      ensures fresh(stateCache) && fresh(cachedLte)
    {
      this.rel := rel;
      stateCache := new Cache();
      cachedLte := new CachedBinaryOp();
      processed, next := map[], map[];
    }

    /** Compares two live macro-states, through the memo table unless they are one and the same. */
    method Lte(x: Addr, y: Addr) returns (r: bool)
      requires CacheOk() && x in stateCache.store && y in stateCache.store
      modifies cachedLte
      ensures CacheOk()
      ensures r <==> MacroLte(rel, stateCache.store[x].key, stateCache.store[y].key)
    {
      if x == y {
        return true;
      }
      var st := stateCache.store;
      var order := rel;
      r := cachedLte.Lookup(x, y,
        (p: Addr, q: Addr) requires p in st && q in st => MacroLte(order, st[p].key, st[q].key));
    }

    /** Is something in `ac` below the element? */
    method Check(ac: Store, q: nat, a: Addr) returns (found: bool)
      requires CacheOk() && Sound(stateCache.store, ac) && a in stateCache.store && q < |rel|
      modifies cachedLte
      ensures CacheOk()
      ensures found <==> Dominated(rel, Elements(stateCache.store, ac), Item(stateCache.store, q, a))
    {
      ghost var st := stateCache.store;
      ghost var e := Item(st, q, a);
      for i := 0 to |rel|
        invariant CacheOk()
        invariant forall p: nat, b: Addr :: p < i && Stored(ac, p, b) ==> !Below(rel, Item(st, p, b), e)
      {
        if rel[q][i] && i in ac {
          for k := 0 to |ac[i]|
            invariant CacheOk()
            invariant forall b :: Stored(ac, i, b) && b in ac[i][..k] ==> !Below(rel, Item(st, i, b), e)
          {
            assert Stored(ac, i, ac[i][k]);
            var lte := Lte(ac[i][k], a);
            if lte {
              assert Item(st, i, ac[i][k]) in Elements(st, ac);
              return true;
            }
          }
          assert ac[i][..|ac[i]|] == ac[i];
        }
      }
      found := false;
    }

    /** Takes a listing out of `ac`, giving up its reference, if the held element makes it superfluous. */
    method DropIfAbove(ac: Store, i: nat, k: nat, q: nat, a: Addr, ghost bc: Store, ghost extra: multiset<Addr>)
      returns (r: Store, dropped: bool)
      requires CacheOk() && References(stateCache.store, ac, bc, extra) && i in ac && k < |ac[i]|
      requires a in stateCache.store && Holds(rel, i, q) && ac[i][k] in stateCache.store
      modifies stateCache, cachedLte
      ensures CacheOk() && References(stateCache.store, r, bc, extra)
      ensures KeysFrom(stateCache.store, old(stateCache.store))
      ensures dropped <==> old(Below(rel, Item(stateCache.store, q, a), Item(stateCache.store, i, ac[i][k])))
      ensures r == if dropped then ac[i := DropAt(ac[i], k)] else ac
    {
      ghost var st := stateCache.store;
      r := ac;
      dropped := Lte(a, ac[i][k]);
      if dropped {
        r := ac[i := DropAt(ac[i], k)];
        DropCounted(st, ac, r, bc, extra, i, k);
        ReleaseCoherent(rel, st, cachedLte.store, ac[i][k]);
        var left := stateCache.Release(ac[i][k], cachedLte);
      }
    }

    /** Takes out of bucket `i` what the held element makes superfluous. */
    method RefineBucket(ac: Store, i: nat, q: nat, a: Addr, ghost bc: Store,
                        ghost extra: multiset<Addr>) returns (r: Store)
      requires CacheOk() && References(stateCache.store, ac, bc, extra)
      requires i in ac && a in stateCache.store && extra[a] > 0 && Holds(rel, i, q)
      modifies stateCache, cachedLte
      ensures CacheOk() && References(stateCache.store, r, bc, extra)
      ensures KeysFrom(stateCache.store, old(stateCache.store))
      ensures r == ac[i := Survivors(rel, old(stateCache.store), i, Item(old(stateCache.store), q, a), ac[i])]
    {
      ghost var st := stateCache.store;
      ghost var e := Item(st, q, a);
      ghost var done := 0;
      var k := 0;
      r := ac;
      RefiningStart(rel, st, ac, i, e);
      while k < |r[i]|
        invariant CacheOk() && References(stateCache.store, r, bc, extra) && KeysFrom(stateCache.store, st)
        invariant a in stateCache.store && i in r && Refining(rel, st, ac, r, i, e, done, k)
        decreases |ac[i]| - done
      {
        RefiningListed(rel, st, stateCache.store, ac, r, i, e, done, k, bc, extra);
        ghost var before := r;
        var dropped;
        r, dropped := DropIfAbove(r, i, k, q, a, bc, extra);
        RefiningStep(rel, st, ac, before, r, i, e, done, k, dropped);
        k := if dropped then k else k + 1;
        done := done + 1;
      }
      RefiningDone(rel, st, ac, r, i, e, done, k);
    }

    /** Refines bucket `i` and forgets the bucket if nothing is left in it. */
    method RefineState(ac: Store, i: nat, q: nat, a: Addr, ghost bc: Store,
                       ghost extra: multiset<Addr>) returns (r: Store)
      requires CacheOk() && References(stateCache.store, ac, bc, extra)
      requires i in ac && a in stateCache.store && extra[a] > 0 && Holds(rel, i, q)
      modifies stateCache, cachedLte
      ensures CacheOk() && References(stateCache.store, r, bc, extra)
      ensures KeysFrom(stateCache.store, old(stateCache.store))
      ensures r == Refined(rel, old(stateCache.store), ac, i, Item(old(stateCache.store), q, a))
    {
      r := RefineBucket(ac, i, q, a, bc, extra);
      if r[i] == [] {
        EmptyBucketRefers(stateCache.store, r, i, bc, extra);
        DropRefined(rel, old(stateCache.store), ac, r, i, old(Item(stateCache.store, q, a)));
        r := r - {i};
      }
    }

    /** Takes out of `ac` all that the held element makes superfluous. */
    method Refine(ac: Store, q: nat, a: Addr, ghost bc: Store, ghost extra: multiset<Addr>) returns (r: Store)
      requires CacheOk() && References(stateCache.store, ac, bc, extra) && NoEmptyBucket(ac)
      requires a in stateCache.store && extra[a] > 0 && q < |rel|
      requires AllInRange(rel, Elements(stateCache.store, ac))
      modifies stateCache, cachedLte
      ensures CacheOk() && References(stateCache.store, bc, r, extra) && NoEmptyBucket(r)
      ensures a in stateCache.store && stateCache.store[a].key == old(stateCache.store[a].key)
      ensures Elements(stateCache.store, r)
           == Kept(rel, old(Elements(stateCache.store, ac)), old(Item(stateCache.store, q, a)))
      ensures Elements(stateCache.store, bc) == old(Elements(stateCache.store, bc))
    {
      ghost var st := stateCache.store;
      ghost var e := Item(st, q, a);
      r := ac;
      for i := 0 to |rel|
        invariant CacheOk() && References(stateCache.store, r, bc, extra) && KeysFrom(stateCache.store, st)
        invariant NoEmptyBucket(r) && Swept(rel, st, ac, r, i, e)
      {
        SweepBucket(rel, st, stateCache.store, ac, r, i, e);
        if rel[i][q] && i in r {
          StillHeld(stateCache.store, r, bc, extra, a);
          r := RefineState(r, i, q, a, bc, extra);
        }
      }
      StillHeld(stateCache.store, r, bc, extra, a);
      SweptElements(rel, st, stateCache.store, ac, r, e);
      ReferencesSwap(stateCache.store, r, bc, extra);
      ElementsKept(st, stateCache.store, bc);
    }

    /** Turns the held reference into that of a new pending element; the pending ones it covers go. */
    method StoreHeld(q: nat, a: Addr, ghost e: Element)
      requires CacheOk() && References(stateCache.store, next, processed, multiset{a}) && NoEmptyBucket(next)
      requires a in stateCache.store && e == Item(stateCache.store, q, a)
      requires e.0 < |rel| && AllInRange(rel, Pending()) && e !in Kept(rel, Pending(), e)
      modifies this`next, stateCache, cachedLte
      ensures CacheOk() && References(stateCache.store, processed, next, multiset{}) && NoEmptyBucket(next)
      ensures Pending() == Kept(rel, old(Pending()), e) + {e} && Processed() == old(Processed())
    {
      hide References, Elements, Coherent, KeysInRange, AllInRange, Kept;
      next := Refine(next, q, a, processed, multiset{a});
      NotStored(stateCache.store, next, q, a);
      ReferencesSwap(stateCache.store, processed, next, multiset{a});
      PutReference(stateCache.store, next, processed, q, a);
      next := Put(next, q, a);
      ReferencesSwap(stateCache.store, next, processed, multiset{});
    }

    /** Stores the held element in `next`; what it covers goes. */
    method Replace(q: nat, a: Addr, ghost e: Element)
      requires CacheOk() && References(stateCache.store, processed, next, multiset{a})
      requires NoEmptyBucket(processed) && NoEmptyBucket(next)
      requires a in stateCache.store && e == Item(stateCache.store, q, a)
      requires e.0 < |rel| && AllInRange(rel, Processed()) && AllInRange(rel, Pending()) &&
        e !in Kept(rel, Pending(), e)
      modifies this, stateCache, cachedLte
      ensures CacheOk() && References(stateCache.store, processed, next, multiset{})
      ensures NoEmptyBucket(processed) && NoEmptyBucket(next)
      ensures Processed() == Kept(rel, old(Processed()), e) && Pending() == Kept(rel, old(Pending()), e) + {e}
    {
      processed := Refine(processed, q, a, next, multiset{a});
      StoreHeld(q, a, e);
    }

    /** Gives the held reference back. */
    method Discard(a: Addr)
      requires CacheOk() && References(stateCache.store, processed, next, multiset{a})
      modifies stateCache, cachedLte
      ensures CacheOk() && References(stateCache.store, processed, next, multiset{})
      ensures Processed() == old(Processed()) && Pending() == old(Pending())
    {
      hide References, Elements, Coherent, KeysInRange, KeysFrom;
      GiveBackReference(stateCache.store, processed, next, a);
      ReleaseCoherent(rel, stateCache.store, cachedLte.store, a);
      var left := stateCache.Release(a, cachedLte);
    }

    /** Takes a reference to a macro-state. */
    method Hold(key: set<nat>) returns (a: Addr)
      requires CacheOk() && References(stateCache.store, processed, next, multiset{})
      requires forall q :: q in key ==> q < |rel|
      modifies stateCache
      ensures CacheOk() && References(stateCache.store, processed, next, multiset{a})
      ensures a in stateCache.store && stateCache.store[a].key == key
      ensures Processed() == old(Processed()) && Pending() == old(Pending())
    {
      ghost var st := stateCache.store;
      a := stateCache.Lookup(key);
      TakeReference(rel, st, cachedLte.store, processed, next, a, key);
    }

    /** Stores an element unless a stored one already covers it; what it covers itself goes. */
    method Admit(e: Element)
      requires Valid() && InRange(rel, e)
      modifies this, stateCache, cachedLte
      ensures Valid()
      ensures Admitted(rel, old(Processed()), old(Pending()), Processed(), Pending(), e)
    {
      ghost var ps, ns := Processed(), Pending();
      var a := Hold(e.1);
      var covered := Check(processed, e.0, a);
      if !covered {
        covered := Check(next, e.0, a);
      }
      assert covered <==> Dominated(rel, ps + ns, e);
      if covered {
        Discard(a);
      } else {
        AdmitIncomparable(rel, ps, ns, e);
        Replace(e.0, a, e);
      }
    }

    method HasPending() returns (r: bool)
      requires Valid()
      ensures r <==> Pending() != {}
    {
      PendingListed(stateCache.store, next);
      r := next != map[];
    }

    /** Takes the first pending element of the lowest state and files it as processed. */
    method NextElement() returns (found: bool, q: nat, a: Addr)
      requires Valid()
      modifies this
      ensures Valid() && (found <==> old(Pending()) != {})
      ensures !found ==> Processed() == old(Processed()) && Pending() == {}
      ensures found ==> a in stateCache.store && Stored(processed, q, a)
      ensures found ==> q in old(next) && old(next)[q] != [] && a == old(next)[q][0]
      ensures found ==> Item(stateCache.store, q, a) in old(Pending())
      ensures found ==> Processed() == old(Processed()) + {Item(stateCache.store, q, a)}
      ensures found ==> Pending() == old(Pending()) - {Item(stateCache.store, q, a)}
      ensures found ==> forall e :: e in old(Pending()) ==> q <= e.0
    {
      PendingListed(stateCache.store, next);
      found, q, a := next != map[], 0, 0;
      if found {
        ghost var some :| some in next;
        LowestExists(next.Keys, some, 0);
        q :| q in next && forall p :: p in next ==> q <= p;
        a := next[q][0];
        assert Stored(next, q, a);
        PlacedOnce(stateCache.store, stateCache.place, a);
        MoveMinimal(rel, stateCache.store, processed, next, q);
        processed, next := Put(processed, q, a), DropFirst(next, q);
      }
    }

    /** Offers the elements one by one. */
    method Update(post: seq<Element>)
      requires Valid() && forall e :: e in post ==> InRange(rel, e)
      modifies this, stateCache, cachedLte
      ensures Valid()
      ensures Offered(rel, old(Processed()), old(Pending()), Processed(), Pending(), Given(post))
    {
      hide Offered, Admitted, InRange, References, Preorder, Coherent;
      ghost var ps, ns := Processed(), Pending();
      OfferNone(rel, ps, ns);
      for i := 0 to |post|
        invariant Valid()
        invariant Offered(rel, ps, ns, Processed(), Pending(), Given(post[..i]))
      {
        ghost var before, beforeNext := Processed(), Pending();
        Admit(post[i]);
        OfferOne(rel, ps, ns, before, beforeNext, Processed(), Pending(), post[..i], post[i]);
        assert post[..i + 1] == post[..i] + [post[i]];
      }
      assert post[..|post|] == post;
    }
  }
}
