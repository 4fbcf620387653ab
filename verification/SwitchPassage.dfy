/** What the three filters do to callbacks that belong to no switch: these pass, once each and in order, with labels
    replaced one to one. */
module SwitchPassage {
  import opened Labels
  import opened SwitchEvents
  import opened SwitchSandwich
  import opened Unswitch

  type Renaming = map<Label, Label>

  predicate OfSwitch(e: Event) {
    e.SwitchOpen? || e.SwitchCase? || e.SwitchDefault? || e.SwitchClose?
  }

  /** The same callback, each label in its place. */
  predicate Same(rho: Renaming, e: Event, f: Event) {
    match e
    case BbOpen(l) => f.BbOpen? && l in rho && f.name == rho[l]
    case Jmp(l) => f.Jmp? && l in rho && f.name == rho[l]
    case Cond(t, u) => f.Cond? && t in rho && u in rho && f.onTrue == rho[t] && f.onFalse == rho[u]
    case _ => f == e
  }

  /** What a switch may become: comparisons, each with its branch and its block, and a jump. */
  predicate OfComparisons(e: Event) {
    e.Compare? || e.Cond? || e.BbOpen? || e.Jmp?
  }

  function Concat(parts: seq<Stream>): Stream {
    if parts == [] then [] else Concat(parts[..|parts| - 1]) + parts[|parts| - 1]
  }

  /** `parts` tells what each callback has become. */
  ghost predicate Parts(es: Stream, rho: Renaming, parts: seq<Stream>) {
    && |parts| == |es|
    && forall i :: 0 <= i < |es| ==>
         if OfSwitch(es[i]) then forall e :: e in parts[i] ==> OfComparisons(e)
         else |parts[i]| == 1 && Same(rho, es[i], parts[i][0])
  }

  ghost predicate Passes(es: Stream, rho: Renaming, out: Stream) {
    && (forall k, l :: k in rho && l in rho && rho[k] == rho[l] ==> k == l)
    && exists parts: seq<Stream> :: Parts(es, rho, parts) && out == Concat(parts)
  }

  // ---------- proof ----------

  lemma {:induction false} UnfoldedParts(u: Unfolding, es: Stream) returns (parts: seq<Stream>)
    ensures |parts| == |es| && Unfold(u, es) == Concat(parts)
    ensures forall i :: 0 <= i < |es| ==> parts[i] == Emitted(NextAll(u, es[..i]), es[i])
    decreases |es|
  {
    hide Emitted, Next;
    if es == [] {
      parts := [];
    } else {
      var before, n := es[..|es| - 1], |es| - 1;
      var rest := UnfoldedParts(u, before);
      parts := rest + [Emitted(NextAll(u, before), es[n])];
      assert parts[..n] == rest;
      assert forall i :: 0 <= i < n ==> es[..i] == before[..i];
    }
  }

  lemma {:induction false} ComparisonsOnly(u: Unfolding, lo: int, n: nat, name: Label)
    ensures forall e :: e in Comparisons(u, lo, n, name) ==> OfComparisons(e)
    decreases n
  {
    if n > 0 {
      ComparisonsOnly(u, lo, n - 1, name);
    }
  }

  lemma EmittedOnly(u: Unfolding, e: Event)
    ensures OfSwitch(e) ==> forall f :: f in Emitted(u, e) ==> OfComparisons(f)
    ensures !OfSwitch(e) ==> Emitted(u, e) == [e]
  {
    match e
    case SwitchCase(lo, hi, name) => ComparisonsOnly(u, lo, RangeSize(lo, hi), name);
    case _ =>
  }

  lemma {:induction false} ConcatRenamed(n: Numbering, parts: seq<Stream>) returns (renamed: seq<Stream>)
    ensures |renamed| == |parts| && RenamedStream(n, Concat(parts)) == Concat(renamed)
    ensures Covers(n, Concat(parts)) ==> forall i :: 0 <= i < |parts| ==> Covers(n, parts[i])
    ensures forall i :: 0 <= i < |parts| ==> renamed[i] == RenamedStream(n, parts[i])
    decreases |parts|
  {
    hide RenamedStream, Covers;
    if parts == [] {
      RenamedNone(n);
      renamed := [];
    } else {
      var k := |parts| - 1;
      var rest := ConcatRenamed(n, parts[..k]);
      RenamedAppend(n, Concat(parts[..k]), parts[k]);
      renamed := rest + [RenamedStream(n, parts[k])];
      assert renamed[..k] == rest;
    }
  }

  /** Both renamings, of the labels that are known behind the first one. */
  ghost function Twice(m: Numbering, n: Numbering): Renaming {
    map l | l in m && Renamed(m, l) in n :: Renamed(n, Renamed(m, l))
  }

  lemma TwiceIsInjective(m: Numbering, last: nat, n: Numbering, last': nat)
    requires Unique(m, last) && Unique(n, last')
    ensures forall k, l :: k in Twice(m, n) && l in Twice(m, n) && Twice(m, n)[k] == Twice(m, n)[l] ==> k == l
  {
    hide Renamed, Unique;
    forall k, l | k in Twice(m, n) && l in Twice(m, n) && Twice(m, n)[k] == Twice(m, n)[l]
      ensures k == l
    {
      RenamedIsInjective(n, last', Renamed(m, k), Renamed(m, l));
      RenamedIsInjective(m, last, k, l);
    }
  }

  lemma RenamedTwice(m: Numbering, n: Numbering, e: Event)
    requires Mentioned(e) <= m.Keys && Mentioned(RenamedEvent(m, e)) <= n.Keys && !OfSwitch(e)
    ensures Same(Twice(m, n), e, RenamedEvent(n, RenamedEvent(m, e)))
  {
    hide Renamed;
  }

  lemma RenamedKind(m: Numbering, e: Event)
    ensures OfSwitch(RenamedEvent(m, e)) == OfSwitch(e) && OfComparisons(RenamedEvent(m, e)) == OfComparisons(e)
  {
    hide Renamed;
  }

  lemma RenamedComparisons(n: Numbering, es: Stream)
    requires forall e :: e in es ==> OfComparisons(e)
    ensures forall e :: e in RenamedStream(n, es) ==> OfComparisons(e)
  {
    forall i | 0 <= i < |es|
      ensures OfComparisons(RenamedStream(n, es)[i])
    {
      RenamedKind(n, es[i]);
    }
  }

  /** The callbacks of a stream that belong to no switch come out once each, in order, with their labels replaced one to
      one, and what stands between them is only what switches have become. */
  lemma SandwichPasses(es: Stream, m: Numbering, last: nat, n: Numbering, last': nat, out: Stream)
    requires Sandwiched(es, m, last, n, last', out)
    ensures Passes(es, Twice(m, n), out)
  {
    hide Unfold, NextAll, Emitted, RenamedEvent, Renamed, Twice, Unique, Same, Covers, RenamedStream;
    RenamedKnown(m, es);
    var r := RenamedStream(m, es);
    var parts := UnfoldedParts(Start(), r);
    var renamed := ConcatRenamed(n, parts);
    forall i | 0 <= i < |es|
      ensures if OfSwitch(es[i]) then forall e :: e in renamed[i] ==> OfComparisons(e)
        else |renamed[i]| == 1 && Same(Twice(m, n), es[i], renamed[i][0])
    {
      RenamedKind(m, es[i]);
      EmittedOnly(NextAll(Start(), r[..i]), r[i]);
      if OfSwitch(es[i]) {
        RenamedComparisons(n, parts[i]);
      } else {
        RenamedSingle(n, r[i]);
        CoveredOne(n, r[i]);
        RenamedTwice(m, n, es[i]);
      }
    }
    assert Parts(es, Twice(m, n), renamed);
    TwiceIsInjective(m, last, n, last');
  }

  lemma RenamedKnown(m: Numbering, es: Stream)
    requires Covers(m, es)
    ensures forall i :: 0 <= i < |es| ==>
      RenamedStream(m, es)[i] == RenamedEvent(m, es[i]) && Mentioned(es[i]) <= m.Keys
  {}

  lemma CoveredOne(n: Numbering, e: Event)
    ensures Covers(n, [e]) ==> Mentioned(e) <= n.Keys
  {
    assert [e][0] == e;
  }

  lemma {:induction false} ConcatSingles(parts: seq<Stream>)
    requires forall i :: 0 <= i < |parts| ==> |parts[i]| == 1
    ensures |Concat(parts)| == |parts| && forall i :: 0 <= i < |parts| ==> Concat(parts)[i] == parts[i][0]
    decreases |parts|
  {
    if parts != [] {
      ConcatSingles(parts[..|parts| - 1]);
    }
  }

  /** A stream without switches comes out as it is, with its labels replaced one to one. */
  lemma WithoutSwitchesTheSame(es: Stream, rho: Renaming, out: Stream)
    requires Passes(es, rho, out) && forall e :: e in es ==> !OfSwitch(e)
    ensures |out| == |es| && forall i :: 0 <= i < |es| ==> Same(rho, es[i], out[i])
  {
    hide Same, Concat;
    var parts: seq<Stream> :| Parts(es, rho, parts) && out == Concat(parts);
    assert forall i :: 0 <= i < |es| ==> es[i] in es;
    ConcatSingles(parts);
  }
}
