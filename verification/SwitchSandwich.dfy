/** The unfolding between two renamings, so that its labels meet no others. */
module SwitchSandwich {
  import opened Labels
  import opened SwitchEvents
  import opened Unswitch

  // ---------- renaming ----------

  function Renamed(m: Numbering, l: Label): Label {
    if l in m then Numbered(m[l]) else l
  }

  function RenamedEvent(m: Numbering, e: Event): Event {
    match e
    case BbOpen(l) => BbOpen(Renamed(m, l))
    case Jmp(l) => Jmp(Renamed(m, l))
    case Cond(t, f) => Cond(Renamed(m, t), Renamed(m, f))
    case SwitchCase(lo, hi, l) => SwitchCase(lo, hi, Renamed(m, l))
    case SwitchDefault(l) => SwitchDefault(Renamed(m, l))
    case _ => e
  }

  function RenamedStream(m: Numbering, es: Stream): (r: Stream)
    ensures |r| == |es| && forall i :: 0 <= i < |es| ==> r[i] == RenamedEvent(m, es[i])
  {
    seq(|es|, i requires 0 <= i < |es| => RenamedEvent(m, es[i]))
  }

  ghost predicate Covers(m: Numbering, es: Stream) {
    forall i :: 0 <= i < |es| ==> Mentioned(es[i]) <= m.Keys
  }

  /** What was renamed stays so when more labels get numbers. */
  lemma RenamedStays(m: Numbering, n: Numbering, es: Stream)
    requires Covers(m, es) && Grows(m, n)
    ensures RenamedStream(n, es) == RenamedStream(m, es) && Covers(n, es)
  {
    forall i | 0 <= i < |es|
      ensures RenamedEvent(n, es[i]) == RenamedEvent(m, es[i])
    {
      assert Mentioned(es[i]) <= m.Keys;
    }
  }

  lemma RenamedIsInjective(m: Numbering, last: nat, l: Label, k: Label)
    requires Unique(m, last) && l in m && k in m && Renamed(m, l) == Renamed(m, k)
    ensures l == k
  {
    NumberedInjective(m[l], m[k]);
  }

  /** All that is renamed looks like a user's label to the unfolding. */
  lemma RenamedIsUser(m: Numbering, es: Stream)
    requires Covers(m, es)
    ensures UserStream(RenamedStream(m, es))
  {
    hide Renamed, IsUser;
    forall i, l | 0 <= i < |es| && l in Mentioned(RenamedEvent(m, es[i]))
      ensures IsUser(l)
    {
      assert Mentioned(es[i]) <= m.Keys;
      var k :| k in Mentioned(es[i]) && l == Renamed(m, k);
      RenamedLabelIsUser(m, k);
    }
  }

  lemma RenamedLabelIsUser(m: Numbering, l: Label)
    requires l in m
    ensures IsUser(Renamed(m, l))
  {
    forall a: nat, b: nat
      ensures Renamed(m, l) != Aux(a, b)
    {
      AuxNotNumbered(a, b, m[l]);
    }
  }

  lemma RenamedExpected(m: Numbering, state: State, e: Event)
    ensures Expect(state, RenamedEvent(m, e)) == Expect(state, e)
  {
    hide Renamed;
  }

  lemma {:induction false} RenamingKeepsOrder(m: Numbering, es: Stream, state: State)
    ensures InOrder(state, RenamedStream(m, es)) <==> InOrder(state, es)
    ensures After(state, RenamedStream(m, es)) == After(state, es)
    decreases |es|
  {
    hide RenamedEvent, Expect;
    if es != [] {
      var before, r := es[..|es| - 1], RenamedStream(m, es);
      RenamingKeepsOrder(m, before, state);
      assert r[..|es| - 1] == RenamedStream(m, before);
      RenamedExpected(m, After(state, before), es[|es| - 1]);
    }
  }

  ghost function RenamedSet(m: Numbering, ls: set<Label>): set<Label> {
    set l | l in ls :: Renamed(m, l)
  }

  ghost function RenamedLabels(m: Numbering, s: LabelState): LabelState {
    LabelState(RenamedSet(m, s.defined), RenamedSet(m, s.reachable))
  }

  ghost predicate LabelsCovered(m: Numbering, s: LabelState) {
    s.defined + s.reachable <= m.Keys
  }

  /** Renamed sets compare as the sets do. */
  lemma RenamedSubset(m: Numbering, last: nat, a: set<Label>, b: set<Label>)
    requires Unique(m, last) && a <= m.Keys && b <= m.Keys
    ensures RenamedSet(m, a) <= RenamedSet(m, b) <==> a <= b
  {
    hide Renamed;
    if RenamedSet(m, a) <= RenamedSet(m, b) {
      forall l | l in a
        ensures l in b
      {
        assert Renamed(m, l) in RenamedSet(m, a);
        var k :| k in b && Renamed(m, k) == Renamed(m, l);
        RenamedIsInjective(m, last, l, k);
      }
    }
  }

  lemma RenamedMember(m: Numbering, last: nat, l: Label, a: set<Label>)
    requires Unique(m, last) && a <= m.Keys && l in m
    ensures Renamed(m, l) in RenamedSet(m, a) <==> l in a
  {
    RenamedSubset(m, last, {l}, a);
    assert RenamedSet(m, {l}) == {Renamed(m, l)};
  }

  lemma RenamedStep(m: Numbering, last: nat, s: LabelState, e: Event)
    requires Unique(m, last) && LabelsCovered(m, s) && Mentioned(e) <= m.Keys
    ensures LabelsFine(RenamedLabels(m, s), RenamedEvent(m, e)) <==> LabelsFine(s, e)
    ensures LabelsNext(RenamedLabels(m, s), RenamedEvent(m, e)) == RenamedLabels(m, LabelsNext(s, e))
    ensures LabelsCovered(m, LabelsNext(s, e))
  {
    hide Renamed;
    match e {
      case FncOpen =>
      case FncClose =>
        RenamedSubset(m, last, s.reachable, s.defined);
        RenamedUnion(m, s.reachable, {});
      case BbOpen(l) =>
        assert l in Mentioned(e);
        RenamedMember(m, last, l, s.defined);
        RenamedUnion(m, s.defined, {l});
      case _ =>
        RenamedUnion(m, s.reachable, Required(e));
        RenamedRequired(m, e);
    }
  }

  lemma RenamedRequired(m: Numbering, e: Event)
    ensures Required(RenamedEvent(m, e)) == RenamedSet(m, Required(e))
  {
  }

  lemma RenamedUnion(m: Numbering, a: set<Label>, b: set<Label>)
    ensures RenamedSet(m, a + b) == RenamedSet(m, a) + RenamedSet(m, b)
  {
  }

  lemma {:induction false} RenamingKeepsLabels(m: Numbering, last: nat, es: Stream, s: LabelState)
    requires Unique(m, last) && LabelsCovered(m, s) && Covers(m, es)
    ensures LabelsOk(RenamedLabels(m, s), RenamedStream(m, es)) <==> LabelsOk(s, es)
    ensures LabelsAfter(RenamedLabels(m, s), RenamedStream(m, es)) == RenamedLabels(m, LabelsAfter(s, es))
    ensures LabelsCovered(m, LabelsAfter(s, es))
    decreases |es|
  {
    if es != [] {
      var before, r := es[..|es| - 1], RenamedStream(m, es);
      RenamingKeepsLabels(m, last, before, s);
      assert r[..|es| - 1] == RenamedStream(m, before);
      RenamedStep(m, last, LabelsAfter(s, before), es[|es| - 1]);
    }
  }

  /** Whether a default was met since the last switch was closed. */
  predicate Seen(es: Stream) {
    es != [] &&
    var e := es[|es| - 1];
    (e.SwitchDefault? || (!e.SwitchClose? && Seen(es[..|es| - 1])))
  }

  /** Every switch has a default. */
  predicate Defaulted(es: Stream) {
    es == [] || (Defaulted(es[..|es| - 1]) && (es[|es| - 1].SwitchClose? ==> Seen(es[..|es| - 1])))
  }

  /** Behind a renaming, no label being empty then, the unfolding stops if and only if a switch has no default. */
  lemma {:induction false} RenamedTraps(m: Numbering, es: Stream)
    requires Covers(m, es)
    ensures NextAll(Start(), RenamedStream(m, es)).default != "" <==> Seen(es)
    ensures NeverTraps(Start(), RenamedStream(m, es)) <==> Defaulted(es)
    decreases |es|
  {
    hide Decimal, RenamedStream, Renamed;
    if es != [] {
      var before, r, e := es[..|es| - 1], RenamedStream(m, es), es[|es| - 1];
      RenamedTraps(m, before);
      assert r[..|es| - 1] == RenamedStream(m, before);
      assert Mentioned(e) <= m.Keys;
      if e.SwitchDefault? {
        NotEmpty(m, e.name);
      }
    }
  }

  lemma NotEmpty(m: Numbering, l: Label)
    requires l in m
    ensures Renamed(m, l) != ""
  {
  }

  // ---------- the three filters in a row ----------

  /** `out` is `es` renamed, unfolded and renamed again. */
  ghost predicate Sandwiched(es: Stream, m: Numbering, last: nat, n: Numbering, last': nat, out: Stream) {
    var r := RenamedStream(m, es);
    && Unique(m, last) && Unique(n, last') && Covers(m, es) && Covers(n, Unfold(Start(), r))
    && out == RenamedStream(n, Unfold(Start(), r))
  }

  lemma RenamedAppend(m: Numbering, es: Stream, fs: Stream)
    ensures RenamedStream(m, es + fs) == RenamedStream(m, es) + RenamedStream(m, fs)
    ensures Covers(m, es + fs) <==> Covers(m, es) && Covers(m, fs)
  {
    hide RenamedEvent;
    var all := es + fs;
    assert forall i :: 0 <= i < |es| ==> all[i] == es[i];
    assert forall i :: 0 <= i < |fs| ==> all[|es| + i] == fs[i];
  }

  /** One callback more, whose labels the grown numberings know. */
  lemma SandwichedMore(es: Stream, m: Numbering, last: nat, n: Numbering, last': nat, out: Stream, e: Event,
                       m': Numbering, top: nat, n': Numbering, top': nat)
    requires Sandwiched(es, m, last, n, last', out) && Grows(m, m') && Grows(n, n') && Unique(m', top) &&
      Unique(n', top')
    requires Covers(m', [e])
    requires
      var emitted := Emitted(NextAll(Start(), RenamedStream(m', es)), RenamedEvent(m', e));
      Covers(n', emitted)
    ensures
      var emitted := Emitted(NextAll(Start(), RenamedStream(m', es)), RenamedEvent(m', e));
      Sandwiched(es + [e], m', top, n', top', out + RenamedStream(n', emitted))
    ensures RenamedStream(m', es) == RenamedStream(m, es)
  {
    hide Emitted, Covers, RenamedStream, RenamedEvent;
    RenamedStays(m, m', es);
    RenamedAppend(m', es, [e]);
    var r := RenamedStream(m', es);
    var emitted := Emitted(NextAll(Start(), r), RenamedEvent(m', e));
    RenamedStays(n, n', Unfold(Start(), r));
    RenamedAppend(n', Unfold(Start(), r), emitted);
    RenamedSingle(m', e);
    assert (r + [RenamedEvent(m', e)])[..|r|] == r;
  }

  lemma RenamedSingle(m: Numbering, e: Event)
    ensures RenamedStream(m, [e]) == [RenamedEvent(m, e)]
  {
  }

  method Rename(filter: ClfUniLabel, e: Event) returns (r: Event)
    requires filter.Valid()
    modifies filter
    ensures filter.Valid() && Grows(old(filter.map_), filter.map_) && Covers(filter.map_, [e])
    ensures r == RenamedEvent(filter.map_, e)
  {
    match e {
      case BbOpen(l) =>
        var n := filter.ResolveLabel(l);
        r := BbOpen(n);
      case Jmp(l) =>
        var n := filter.ResolveLabel(l);
        r := Jmp(n);
      case Cond(t, f) =>
        var n := filter.ResolveLabel(t);
        var o := filter.ResolveLabel(f);
        r := Cond(n, o);
      case SwitchCase(lo, hi, l) =>
        var n := filter.ResolveLabel(l);
        r := SwitchCase(lo, hi, n);
      case SwitchDefault(l) =>
        var n := filter.ResolveLabel(l);
        r := SwitchDefault(n);
      case _ =>
        r := e;
    }
  }

  method RenameAll(filter: ClfUniLabel, es: Stream) returns (out: Stream)
    requires filter.Valid()
    modifies filter
    ensures filter.Valid() && Grows(old(filter.map_), filter.map_) && Covers(filter.map_, es)
    ensures out == RenamedStream(filter.map_, es)
  {
    hide RenamedEvent, RenamedStream, Covers;
    out := [];
    RenamedNone(filter.map_);
    for i := 0 to |es|
      invariant filter.Valid() && Grows(old(filter.map_), filter.map_)
      invariant Covers(filter.map_, es[..i]) && out == RenamedStream(filter.map_, es[..i])
    {
      ghost var before := filter.map_;
      var r := Rename(filter, es[i]);
      out := out + [r];
      RenamedStays(before, filter.map_, es[..i]);
      RenamedAppend(filter.map_, es[..i], [es[i]]);
      RenamedSingle(filter.map_, es[i]);
      assert es[..i + 1] == es[..i] + [es[i]];
    }
    assert es[..|es|] == es;
  }

  lemma RenamedNone(m: Numbering)
    ensures RenamedStream(m, []) == [] && Covers(m, [])
  {
  }

  lemma {:induction false} DefaultedPrefix(es: Stream, i: nat)
    requires i <= |es| && Defaulted(es)
    ensures Defaulted(es[..i])
    decreases |es|
  {
    if i < |es| {
      DefaultedPrefix(es[..|es| - 1], i);
      assert es[..|es| - 1][..i] == es[..i];
    } else {
      assert es[..i] == es;
    }
  }

  class Sandwich {
    const outer: ClfUniLabel
    const unfolding: ClfUnfoldSwitch
    const inner: ClfUniLabel

    constructor ()
      ensures outer != inner && Fresh() && fresh(outer) && fresh(unfolding) && fresh(inner)
    {
      outer := new ClfUniLabel();
      unfolding := new ClfUnfoldSwitch();
      inner := new ClfUniLabel();
    }

    ghost predicate Fresh()
      reads outer, unfolding, inner
    {
      outer.Valid() && inner.Valid() && unfolding.Now() == Start() && outer.map_ == inner.map_ == map[]
    }

    /** One callback through all three; `es` are those before it, `out` what came of them. */
    method Callback(e: Event, ghost es: Stream, out: Stream) returns (out': Stream, trapped: bool)
      requires outer != inner
      requires Sandwiched(es, outer.map_, outer.last, inner.map_, inner.last, out)
      requires unfolding.Now() == NextAll(Start(), RenamedStream(outer.map_, es))
      modifies outer, unfolding, inner
      ensures RenamedStream(outer.map_, es) == old(RenamedStream(outer.map_, es)) && Covers(outer.map_, es + [e])
      ensures trapped == Traps(NextAll(Start(), RenamedStream(outer.map_, es)), RenamedEvent(outer.map_, e))
      ensures !trapped ==> Sandwiched(es + [e], outer.map_, outer.last, inner.map_, inner.last, out')
      ensures !trapped ==> unfolding.Now() == NextAll(Start(), RenamedStream(outer.map_, es + [e]))
    {
      hide NextAll, Unfold, RenamedEvent, RenamedStream, Covers, Emitted, Next, Traps;
      out' := out;
      ghost var m, n, last, last' := outer.map_, inner.map_, outer.last, inner.last;
      var r := Rename(outer, e);
      RenamedStays(m, outer.map_, es);
      RenamedAppend(outer.map_, es, [e]);
      var emitted;
      emitted, trapped := unfolding.Callback(r);
      if trapped {
        return;
      }
      var more := RenameAll(inner, emitted);
      out' := out + more;
      SandwichedMore(es, m, last, n, last', out, e, outer.map_, outer.last, inner.map_, inner.last);
      NextOne(outer.map_, es, e);
    }

    /** The whole stream; it stops if and only if a switch has no default. */
    method Run(es: Stream) returns (out: Stream, trapped: bool)
      requires outer != inner && Fresh()
      modifies outer, unfolding, inner
      ensures trapped <==> !Defaulted(es)
      ensures !trapped ==> Sandwiched(es, outer.map_, outer.last, inner.map_, inner.last, out)
    {
      hide NextAll, Unfold, RenamedEvent, Covers, Traps, NeverTraps, Defaulted;
      out := [];
      SandwichedNone();
      for i := 0 to |es|
        invariant Sandwiched(es[..i], outer.map_, outer.last, inner.map_, inner.last, out)
        invariant unfolding.Now() == NextAll(Start(), RenamedStream(outer.map_, es[..i]))
        invariant Defaulted(es[..i])
      {
        out, trapped := Callback(es[i], es[..i], out);
        StillDefaulted(outer.map_, es, i);
        if trapped {
          return;
        }
        assert es[..i + 1] == es[..i] + [es[i]];
      }
      assert es[..|es|] == es;
      trapped := false;
    }
  }

  lemma NextOne(m: Numbering, es: Stream, e: Event)
    ensures NextAll(Start(), RenamedStream(m, es + [e])) ==
            Next(NextAll(Start(), RenamedStream(m, es)), RenamedEvent(m, e))
  {
    RenamedAppend(m, es, [e]);
    RenamedSingle(m, e);
    var r := RenamedStream(m, es);
    assert (r + [RenamedEvent(m, e)])[..|r|] == r;
  }

  lemma SandwichedNone()
    ensures forall last, last' :: Sandwiched([], map[], last, map[], last', [])
    ensures Defaulted([]) && NextAll(Start(), RenamedStream(map[], [])) == Start()
  {
    RenamedNone(map[]);
    assert RenamedStream(map[], []) == [] && Unfold(Start(), []) == [];
  }

  /** The callback that traps is the first close of a switch without a default. */
  lemma StillDefaulted(m: Numbering, es: Stream, i: nat)
    requires i < |es| && Defaulted(es[..i]) && Covers(m, es[..i] + [es[i]])
    ensures Traps(NextAll(Start(), RenamedStream(m, es[..i])), RenamedEvent(m, es[i])) ==> !Defaulted(es)
    ensures !Traps(NextAll(Start(), RenamedStream(m, es[..i])), RenamedEvent(m, es[i])) ==> Defaulted(es[..i + 1])
  {
    hide RenamedStream, NextAll, RenamedEvent, Defaulted, Renamed;
    var more := es[..i + 1];
    assert more == es[..i] + [es[i]] && more[..i] == es[..i];
    RenamedAppend(m, es[..i], [es[i]]);
    RenamedTraps(m, es[..i]);
    DefaultedLast(more);
    RenamedClose(m, es[i]);
    if Defaulted(es) {
      DefaultedPrefix(es, i + 1);
    }
  }

  lemma DefaultedLast(es: Stream)
    requires es != []
    ensures Defaulted(es) <==>
            Defaulted(es[..|es| - 1]) && (es[|es| - 1].SwitchClose? ==> Seen(es[..|es| - 1]))
  {
  }

  lemma RenamedClose(m: Numbering, e: Event)
    ensures RenamedEvent(m, e).SwitchClose? <==> e.SwitchClose?
  {
  }

  /** What the checkers accept they still accept behind the sandwich. */
  lemma SandwichIsAccepted(es: Stream, m: Numbering, last: nat, n: Numbering, last': nat, out: Stream)
    requires Sandwiched(es, m, last, n, last', out) && Defaulted(es)
    requires InOrder(Init, es) && LabelsOk(LabelState({}, {}), es)
    ensures InOrder(Init, out) && LabelsOk(LabelState({}, {}), out)
    ensures After(Init, out) == Behind(After(Init, es))
  {
    hide RenamedStream, Unfold, InOrder, LabelsOk, Covers;
    var none := LabelState({}, {});
    var r := RenamedStream(m, es);
    var u := Unfold(Start(), r);
    NoneRenamed(m);
    NoneRenamed(n);
    RenamingKeepsOrder(m, es, Init);
    RenamingKeepsLabels(m, last, es, none);
    RenamedIsUser(m, es);
    RenamedTraps(m, es);
    UnfoldKeepsOrder(Start(), r, Init);
    UnfoldKeepsLabels(Start(), r, Init, none, none);
    RenamingKeepsOrder(n, u, Init);
    RenamingKeepsLabels(n, last', u, none);
  }

  lemma NoneRenamed(m: Numbering)
    ensures RenamedLabels(m, LabelState({}, {})) == LabelState({}, {}) && LabelsCovered(m, LabelState({}, {}))
  {
  }
}
