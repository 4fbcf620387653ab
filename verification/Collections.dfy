/** Options, sequences, and sets of numbers, as they are used all over. */
module Collections {
  datatype Option<T> = None | Some(value: T)

  predicate Distinct(s: seq<nat>) {
    forall i, j :: 0 <= i < j < |s| ==> s[i] != s[j]
  }

  lemma Regroup<T>(a: seq<T>, b: seq<T>, c: seq<T>)
    ensures a + b + c == a + (b + c)
  {}

  lemma UnusedNumber(used: set<nat>)
    ensures exists n: nat :: n !in used
  {
    var top := UpperBound(used);
    assert top !in used;
  }

  ghost function UpperBound(used: set<nat>): (r: nat)
    ensures forall n :: n in used ==> n < r
  {
    if used == {} then 0 else
      var n :| n in used;
      assert used == (used - {n}) + {n};
      var rest := UpperBound(used - {n});
      if rest <= n then n + 1 else rest
  }

  /** The smallest member, where an ordered set's iteration starts. */
  method Smallest(s: set<nat>) returns (m: nat)
    requires s != {}
    ensures m in s && forall x :: x in s ==> m <= x
  {
    m :| m in s;
    var rest := s - {m};
    while rest != {}
      invariant rest <= s && m in s && forall x :: x in s ==> x in rest || m <= x
    {
      var y: nat :| y in rest;
      rest := rest - {y};
      m := if y < m then y else m;
    }
  }
}
