/** Labels written with numbers, and the filter that gives every label a number of its own. */
module Labels {

  type Label = string

  function Digit(d: nat): char
    requires d < 10
  {
    "0123456789"[d]
  }

  function Decimal(n: nat): string {
    if n < 10 then [Digit(n)] else Decimal(n / 10) + [Digit(n % 10)]
  }

  ghost predicate Digits(s: string) {
    forall i :: 0 <= i < |s| ==> '0' <= s[i] <= '9'
  }

  lemma {:induction false} DecimalDigits(n: nat)
    ensures Decimal(n) != [] && Digits(Decimal(n))
  {
    if n >= 10 {
      DecimalDigits(n / 10);
    }
  }

  lemma DigitInjective(d: nat, e: nat)
    requires d < 10 && e < 10 && Digit(d) == Digit(e)
    ensures d == e
  {
  }

  /** Different numbers are written differently. */
  lemma {:induction false} DecimalInjective(m: nat, n: nat)
    requires Decimal(m) == Decimal(n)
    ensures m == n
    decreases m
  {
    var s, t := Decimal(m), Decimal(n);
    if m >= 10 {
      DecimalDigits(m / 10);
    }
    if n >= 10 {
      DecimalDigits(n / 10);
    }
    assert s[|s| - 1] == Digit(m % 10) && t[|t| - 1] == Digit(n % 10);
    DigitInjective(m % 10, n % 10);
    if m >= 10 && n >= 10 {
      assert s[..|s| - 1] == Decimal(m / 10) && t[..|t| - 1] == Decimal(n / 10);
      DecimalInjective(m / 10, n / 10);
    }
  }

  /** Strings cut at the first character that is no digit. */
  lemma CutAtDigits(a: string, b: string, c: string, d: string, x: char)
    requires Digits(a) && Digits(c) && !('0' <= x <= '9') && a + [x] + b == c + [x] + d
    ensures a == c && b == d
  {
    var s := a + [x] + b;
    assert s[|a|] == x && s[|c|] == x;
    assert forall i :: 0 <= i < |a| ==> s[i] == a[i];
    assert forall i :: 0 <= i < |c| ==> s[i] == c[i];
    assert |a| == |c|;
    assert s[..|a|] == a && s[..|c|] == c && s[|a| + 1..] == b && s[|c| + 1..] == d;
  }

  /** The label of number `n`. */
  function Numbered(n: nat): Label {
    "L" + Decimal(n)
  }

  /** The label that the unfolding makes for case `j` of switch `k`. */
  function Aux(k: nat, j: nat): Label {
    "switch_" + Decimal(k) + "__case_" + Decimal(j)
  }

  lemma NumberedInjective(m: nat, n: nat)
    requires Numbered(m) == Numbered(n)
    ensures m == n
  {
    assert Numbered(m)[1..] == Decimal(m) && Numbered(n)[1..] == Decimal(n);
    DecimalInjective(m, n);
  }

  lemma AuxParts(k: nat, j: nat)
    ensures Aux(k, j)[7..] == Decimal(k) + ['_'] + ("_case_" + Decimal(j))
    ensures ("_case_" + Decimal(j))[6..] == Decimal(j)
  {
    var tail := Decimal(k) + ['_'] + ("_case_" + Decimal(j));
    assert "__case_" == ['_'] + "_case_";
    assert Aux(k, j) == "switch_" + tail;
  }

  lemma AuxInjective(k: nat, j: nat, l: nat, i: nat)
    requires Aux(k, j) == Aux(l, i)
    ensures k == l && j == i
  {
    hide Decimal, Aux;
    DecimalDigits(k);
    DecimalDigits(l);
    AuxParts(k, j);
    AuxParts(l, i);
    CutAtDigits(Decimal(k), "_case_" + Decimal(j), Decimal(l), "_case_" + Decimal(i), '_');
    DecimalInjective(k, l);
    DecimalInjective(j, i);
  }

  /** No label made by the unfolding is a numbered one. */
  lemma AuxNotNumbered(k: nat, j: nat, n: nat)
    ensures Aux(k, j) != Numbered(n)
  {
    assert Aux(k, j)[0] == 's' && Numbered(n)[0] == 'L';
  }

  // ---------- the filter ----------

  type Numbering = map<Label, nat>

  /** Numbers from 1 to `last`, each given once. */
  ghost predicate Unique(m: Numbering, last: nat) {
    && (forall l :: l in m ==> 1 <= m[l] <= last)
    && (forall l, k :: l in m && k in m && m[l] == m[k] ==> l == k)
  }

  /** `n` has what `m` has, and maybe more. */
  ghost predicate Grows(m: Numbering, n: Numbering) {
    forall l :: l in m ==> l in n && n[l] == m[l]
  }

  class ClfUniLabel {
    var map_: Numbering
    var last: nat

    constructor ()
      ensures map_ == map[] && last == 0 && Valid()
    {
      map_, last := map[], 0;
    }

    ghost predicate Valid()
      reads this
    {
      Unique(map_, last)
    }

    method LabelLookup(name: Label) returns (n: nat)
      requires Valid()
      modifies this
      ensures Valid() && Grows(old(map_), map_) && name in map_ && map_[name] == n
      ensures name in old(map_) ==> map_ == old(map_) && last == old(last)
      ensures name !in old(map_) ==> n == last == old(last) + 1
    {
      if name in map_ {
        return map_[name];
      }
      last := last + 1;
      map_ := map_[name := last];
      return last;
    }

    method ResolveLabel(name: Label) returns (r: Label)
      requires Valid()
      modifies this
      ensures Valid() && Grows(old(map_), map_) && name in map_ && r == Numbered(map_[name])
    {
      var n := LabelLookup(name);
      r := Numbered(n);
    }
  }
}
