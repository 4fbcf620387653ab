/** Enumeration of a product of address lists by a row of positions, the first of which turns fastest. */
module Odometer {
  import opened Buckets
  import opened StateCache
  import opened TreeAutomata
  import Antichain

  predicate Positions(trans: seq<seq<Addr>>, p: seq<nat>) {
    |p| == |trans| && forall j :: 0 <= j < |p| ==> p[j] < |trans[j]|
  }

  /** The number of combinations before the one at `p`. */
  ghost function Rank(trans: seq<seq<Addr>>, p: seq<nat>): (r: nat)
    requires Positions(trans, p)
    ensures r < Total(trans)
  {
    if p == [] then 0
    else
      RankBelow(|trans[0]|, p[0], Rank(trans[1..], p[1..]), Total(trans[1..]));
      p[0] + |trans[0]| * Rank(trans[1..], p[1..])
  }

  ghost function Total(trans: seq<seq<Addr>>): nat {
    if trans == [] then 1 else |trans[0]| * Total(trans[1..])
  }

  lemma RankBelow(n: nat, x: nat, rest: nat, total: nat)
    requires x < n && rest < total
    ensures 0 <= x + n * rest < n * total
  {
    assert n * (rest + 1) <= n * total;
  }

  lemma UniqueDigits(n: nat, x: nat, rest: nat, x': nat, rest': nat)
    requires x < n && x' < n && x + n * rest == x' + n * rest'
    ensures x == x' && rest == rest'
  {
    if rest < rest' {
      TimesMore(n, rest, rest');
    } else if rest' < rest {
      TimesMore(n, rest', rest);
    }
  }

  lemma TimesMore(n: nat, less: nat, more: nat)
    requires less < more
    ensures n * less + n <= n * more
  {
    assert n * (less + 1) <= n * more;
  }

  /** No two rows of positions have the same rank. */
  lemma {:induction false} RankInjective(trans: seq<seq<Addr>>, p: seq<nat>, p': seq<nat>)
    requires Positions(trans, p) && Positions(trans, p') && Rank(trans, p) == Rank(trans, p')
    ensures p == p'
  {
    if p != [] {
      UniqueDigits(|trans[0]|, p[0], Rank(trans[1..], p[1..]), p'[0], Rank(trans[1..], p'[1..]));
      RankInjective(trans[1..], p[1..], p'[1..]);
      assert p == [p[0]] + p[1..] && p' == [p'[0]] + p'[1..];
    }
  }

  ghost function Zeros(n: nat): (p: seq<nat>)
    ensures |p| == n && forall j :: 0 <= j < n ==> p[j] == 0
  {
    seq(n, _ => 0)
  }

  lemma {:induction false} RankOfZeros(trans: seq<seq<Addr>>)
    requires Positions(trans, Zeros(|trans|))
    ensures Rank(trans, Zeros(|trans|)) == 0
  {
    if trans != [] {
      assert Zeros(|trans|)[1..] == Zeros(|trans[1..]|);
      RankOfZeros(trans[1..]);
    }
  }

  /** The first `k` positions turned back to the start, position `k` advanced. */
  ghost function Carry(p: seq<nat>, k: nat): (r: seq<nat>)
    ensures |r| == |p|
    ensures forall j :: 0 <= j < |p| ==> r[j] == if j < k then 0 else if j == k then p[j] + 1 else p[j]
  {
    seq(|p|, j requires 0 <= j < |p| => if j < k then 0 else if j == k then p[j] + 1 else p[j])
  }

  /** A carry over positions that are all at their end adds one. */
  lemma {:induction false} RankCarry(trans: seq<seq<Addr>>, p: seq<nat>, k: nat)
    requires Positions(trans, p) && k < |p| && p[k] + 1 < |trans[k]|
    requires forall j :: 0 <= j < k ==> p[j] + 1 == |trans[j]|
    ensures Positions(trans, Carry(p, k)) && Rank(trans, Carry(p, k)) == Rank(trans, p) + 1
  {
    if k == 0 {
      assert Carry(p, k)[1..] == p[1..];
    } else {
      RankCarry(trans[1..], p[1..], k - 1);
      assert Carry(p, k)[1..] == Carry(p[1..], k - 1);
      DistributeOne(|trans[0]|, Rank(trans[1..], p[1..]));
    }
  }

  lemma DistributeOne(n: nat, rest: nat)
    ensures n * (rest + 1) == n * rest + n
  {}

  /** With every position at its end, the last combination has been reached. */
  lemma {:induction false} RankOfLast(trans: seq<seq<Addr>>, p: seq<nat>)
    requires Positions(trans, p) && forall j :: 0 <= j < |p| ==> p[j] + 1 == |trans[j]|
    ensures Rank(trans, p) + 1 == Total(trans)
  {
    if p != [] {
      RankOfLast(trans[1..], p[1..]);
      var n, total := |trans[0]|, Total(trans[1..]);
      assert n * (total - 1) == n * total - n;
    }
  }

  class ResponseExt {
    var trans: seq<seq<Addr>>
    var current: seq<nat>

    ghost predicate Valid()
      reads this
    {
      Positions(trans, current)
    }

    constructor ()
      ensures Valid()
    {
      trans, current := [], [];
    }

    /** Lays out, for each child of `t`, the processed macro-states of its state; child `index` is fixed to `a`. */
    method Get(ac: Antichain.Antichain, a: Addr, t: Transition, index: nat) returns (found: bool)
      requires NoEmptyBucket(ac.processed)
      modifies this
      ensures Valid()
      ensures found <==> forall j :: 0 <= j < |t.lhs| && j != index ==> t.lhs[j] in ac.processed
      ensures found ==> Columns(trans, ac.processed, a, t.lhs, index) && current == Zeros(|t.lhs|)
    {
      trans, current := [], [];
      for j := 0 to |t.lhs|
        invariant Valid()
        invariant Columns(trans, ac.processed, a, t.lhs[..j], index) && current == Zeros(j)
        invariant forall k :: 0 <= k < j && k != index ==> t.lhs[k] in ac.processed
      {
        var column;
        if j == index {
          column := [a];
        } else {
          if t.lhs[j] !in ac.processed {
            trans, current := [], [];
            return false;
          }
          column := ac.processed[t.lhs[j]];
        }
        trans := trans + [column];
        current := current + [0];
      }
      assert t.lhs[..|t.lhs|] == t.lhs;
      found := true;
    }

    /** Advances to the next combination; with the last one behind, turns back to the first and says so. */
    method Next() returns (more: bool)
      requires Valid()
      modifies this`current
      ensures Valid()
      ensures more <==> Rank(trans, old(current)) + 1 < Total(trans)
      ensures more ==> Rank(trans, current) == Rank(trans, old(current)) + 1
      ensures !more ==> current == Zeros(|trans|)
    {
      ghost var p := current;
      for i := 0 to |trans|
        invariant |current| == |trans| && forall j :: 0 <= j < |p| ==> current[j] == if j < i then 0 else p[j]
        invariant forall j :: 0 <= j < i ==> p[j] + 1 == |trans[j]|
      {
        if current[i] + 1 < |trans[i]| {
          current := current[i := current[i] + 1];
          RankCarry(trans, p, i);
          assert current == Carry(p, i);
          return true;
        }
        current := current[i := 0];
      }
      RankOfLast(trans, p);
      assert current == Zeros(|trans|);
      more := false;
    }

    /** Does every macro-state of the current combination hold the child state of `t` there? */
    method Match(st: Entries, t: Transition) returns (r: bool)
      requires Valid() && Live(st, trans) && |t.lhs| == |trans|
      ensures r <==> Fires(t, t.symbol, Keys(st, trans, current))
    {
      for i := 0 to |t.lhs|
        invariant forall j :: 0 <= j < i ==> t.lhs[j] in Keys(st, trans, current)[j]
      {
        if t.lhs[i] !in st[trans[i][current[i]]].key {
          return false;
        }
      }
      r := true;
    }
  }

  ghost predicate Columns(trans: seq<seq<Addr>>, processed: Store, a: Addr, lhs: seq<nat>, index: nat) {
    && |trans| == |lhs|
    && forall j :: 0 <= j < |lhs| ==>
         if j == index then trans[j] == [a] else lhs[j] in processed && trans[j] == processed[lhs[j]]
  }

  predicate Live(st: Entries, trans: seq<seq<Addr>>) {
    forall j, k :: 0 <= j < |trans| && 0 <= k < |trans[j]| ==> trans[j][k] in st
  }

  /** The macro-states of a combination. */
  ghost function Keys(st: Entries, trans: seq<seq<Addr>>, p: seq<nat>): (r: seq<set<nat>>)
    requires Positions(trans, p) && Live(st, trans)
    ensures |r| == |p| && forall j :: 0 <= j < |p| ==> r[j] == st[trans[j][p[j]]].key
  {
    seq(|p|, j requires 0 <= j < |p| => st[trans[j][p[j]]].key)
  }
}
