/** The filter that turns a switch into comparisons and branches. */
module Unswitch {
  import opened Labels
  import opened SwitchEvents

  /** The state of the filter: cases of the current switch so far, switches so far, the operand and the default label of
      the current switch (empty if there is none). */
  datatype Unfolding = Unfolding(cases: nat, switches: nat, src: nat, default: Label)

  /** One comparison: to the case's label if it holds, to a new block if not. */
  function Comparison(u: Unfolding, value: int, name: Label): Stream {
    var aux := Aux(u.switches, u.cases + 1);
    [Compare(u.src, value), Cond(name, aux), BbOpen(aux)]
  }

  /** The comparisons for `n` values from `lo` on. */
  function Comparisons(u: Unfolding, lo: int, n: nat, name: Label): Stream
    decreases n
  {
    if n == 0 then []
    else Comparisons(u, lo, n - 1, name) + Comparison(u.(cases := u.cases + n - 1), lo + n - 1, name)
  }

  function RangeSize(lo: int, hi: int): nat {
    if lo <= hi then hi - lo + 1 else 0
  }

  /** What the filter passes on for one callback. */
  function Emitted(u: Unfolding, e: Event): Stream {
    match e
    case SwitchOpen(_) => []
    case SwitchCase(lo, hi, name) => Comparisons(u, lo, RangeSize(lo, hi), name)
    case SwitchDefault(_) => []
    case SwitchClose => [Jmp(u.default)]
    case _ => [e]
  }

  function Next(u: Unfolding, e: Event): Unfolding {
    match e
    case SwitchOpen(src) => u.(src := src)
    case SwitchCase(lo, hi, _) => u.(cases := u.cases + RangeSize(lo, hi))
    case SwitchDefault(name) => u.(default := name)
    case SwitchClose => u.(cases := 0, switches := u.switches + 1, default := "")
    case _ => u
  }

  /** The filter stops when a switch is closed that had no default. */
  predicate Traps(u: Unfolding, e: Event) {
    e.SwitchClose? && u.default == ""
  }

  function NextAll(u: Unfolding, es: Stream): Unfolding {
    if es == [] then u else Next(NextAll(u, es[..|es| - 1]), es[|es| - 1])
  }

  function Unfold(u: Unfolding, es: Stream): Stream {
    if es == [] then [] else Unfold(u, es[..|es| - 1]) + Emitted(NextAll(u, es[..|es| - 1]), es[|es| - 1])
  }

  predicate NeverTraps(u: Unfolding, es: Stream) {
    es == [] || (NeverTraps(u, es[..|es| - 1]) && !Traps(NextAll(u, es[..|es| - 1]), es[|es| - 1]))
  }

  function Start(): Unfolding {
    Unfolding(0, 0, 0, "")
  }

  class ClfUnfoldSwitch {
    var casePerSwitchCnt: nat
    var switchCnt: nat
    var src: nat
    var defLabel: Label

    constructor ()
      ensures Now() == Start()
    {
      casePerSwitchCnt, switchCnt, src, defLabel := 0, 0, 0, "";
    }

    ghost function Now(): Unfolding
      reads this
    {
      Unfolding(casePerSwitchCnt, switchCnt, src, defLabel)
    }

    method EmitCase(value: int, name: Label) returns (out: Stream)
      modifies this`casePerSwitchCnt
      ensures casePerSwitchCnt == old(casePerSwitchCnt) + 1 && out == Comparison(old(Now()), value, name)
    {
      casePerSwitchCnt := casePerSwitchCnt + 1;
      var aux := Aux(switchCnt, casePerSwitchCnt);
      out := [Compare(src, value)];
      out := out + [Cond(name, aux)];
      out := out + [BbOpen(aux)];
    }

    method SwitchCaseCallback(lo: int, hi: int, name: Label) returns (out: Stream)
      modifies this`casePerSwitchCnt
      ensures casePerSwitchCnt == old(casePerSwitchCnt) + RangeSize(lo, hi)
      ensures out == Comparisons(old(Now()), lo, RangeSize(lo, hi), name)
    {
      out := [];
      var i := lo;
      while i <= hi
        invariant lo <= i && (i <= hi + 1 || i == lo)
        invariant casePerSwitchCnt == old(casePerSwitchCnt) + (i - lo)
        invariant out == Comparisons(old(Now()), lo, i - lo, name)
      {
        var one := EmitCase(i, name);
        out := out + one;
        i := i + 1;
      }
    }

    method EmitDefault() returns (out: Stream, trapped: bool)
      modifies this`defLabel
      ensures trapped == (old(defLabel) == "")
      ensures !trapped ==> out == [Jmp(old(defLabel))] && defLabel == ""
    {
      if defLabel == "" {
        return [], true;
      }
      out, trapped := [Jmp(defLabel)], false;
      defLabel := "";
    }

    method Callback(e: Event) returns (out: Stream, trapped: bool)
      modifies this
      ensures trapped == Traps(old(Now()), e)
      ensures !trapped ==> out == Emitted(old(Now()), e) && Now() == Next(old(Now()), e)
    {
      out, trapped := [], false;
      match e {
        case SwitchOpen(s) => src := s;
        case SwitchDefault(name) => defLabel := name;
        case SwitchCase(lo, hi, name) => out := SwitchCaseCallback(lo, hi, name);
        case SwitchClose =>
          out, trapped := EmitDefault();
          if trapped {
            return;
          }
          casePerSwitchCnt := 0;
          switchCnt := switchCnt + 1;
        case _ => out := [e];
      }
    }
  }

  // ---------- what the checkers say of the unfolded stream ----------

  lemma {:induction false} ComparisonsInOrder(u: Unfolding, lo: int, n: nat, name: Label)
    ensures InOrder(BlockLevel, Comparisons(u, lo, n, name)) &&
      After(BlockLevel, Comparisons(u, lo, n, name)) == BlockLevel
    decreases n
  {
    if n > 0 {
      ComparisonsInOrder(u, lo, n - 1, name);
      var one := Comparison(u.(cases := u.cases + n - 1), lo + n - 1, name);
      InOrderThree(BlockLevel, one[0], one[1], one[2]);
      InOrderJoin(BlockLevel, Comparisons(u, lo, n - 1, name), one);
    }
  }

  /** Where the checker behind the unfolding is when the one before it is in `state`: a switch is one block. */
  function Behind(state: State): State {
    if state == InsnSwitch then BlockLevel else state
  }

  lemma {:induction false} EmittedInOrder(u: Unfolding, e: Event, state: State)
    requires Expect(state, e).0
    ensures InOrder(Behind(state), Emitted(u, e)) && After(Behind(state), Emitted(u, e)) == Behind(Expect(state, e).1)
  {
    match e {
      case SwitchCase(lo, hi, name) => ComparisonsInOrder(u, lo, RangeSize(lo, hi), name);
      case SwitchClose => InOrderOne(Behind(state), Jmp(u.default));
      case _ => InOrderOne(Behind(state), e);
    }
  }

  /** A stream in order is unfolded to one in order. */
  lemma {:induction false} UnfoldKeepsOrder(u: Unfolding, es: Stream, state: State)
    requires InOrder(state, es)
    ensures InOrder(Behind(state), Unfold(u, es)) && After(Behind(state), Unfold(u, es)) == Behind(After(state, es))
    decreases |es|
  {
    if es != [] {
      var before, e := es[..|es| - 1], es[|es| - 1];
      UnfoldKeepsOrder(u, before, state);
      EmittedInOrder(NextAll(u, before), e, After(state, before));
      InOrderJoin(Behind(state), Unfold(u, before), Emitted(NextAll(u, before), e));
    }
  }

  /** A label that the unfolding does not make. */
  ghost predicate IsUser(l: Label) {
    forall k: nat, j: nat :: l != Aux(k, j)
  }

  function Mentioned(e: Event): set<Label> {
    Required(e) + if e.BbOpen? then {e.name} else {}
  }

  ghost predicate UserEvent(e: Event) {
    forall l :: l in Mentioned(e) ==> IsUser(l)
  }

  ghost predicate UserStream(es: Stream) {
    forall i :: 0 <= i < |es| ==> UserEvent(es[i])
  }

  /** A label that the unfolding made already. */
  ghost predicate Made(u: Unfolding, l: Label) {
    exists k: nat, j: nat :: l == Aux(k, j) && (k < u.switches || (k == u.switches && j <= u.cases))
  }

  lemma NextAuxIsNew(u: Unfolding, l: Label)
    requires Made(u, l) || IsUser(l)
    ensures l != Aux(u.switches, u.cases + 1)
  {
    if Made(u, l) {
      var k: nat, j: nat :| l == Aux(k, j) && (k < u.switches || (k == u.switches && j <= u.cases));
      AuxDiffers(k, j, u.switches, u.cases + 1);
    }
  }

  lemma AuxDiffers(k: nat, j: nat, l: nat, i: nat)
    requires k != l || j != i
    ensures Aux(k, j) != Aux(l, i)
  {
    if Aux(k, j) == Aux(l, i) {
      AuxInjective(k, j, l, i);
    }
  }

  lemma MadeIsNoUser(u: Unfolding, l: Label)
    requires Made(u, l)
    ensures !IsUser(l)
  {
    var k: nat, j: nat :| l == Aux(k, j) && (k < u.switches || (k == u.switches && j <= u.cases));
  }

  lemma MadeMore(u: Unfolding, l: Label, v: Unfolding)
    requires Made(u, l) && (u.switches < v.switches || (u.switches == v.switches && u.cases <= v.cases))
    ensures Made(v, l)
  {
    var k: nat, j: nat :| l == Aux(k, j) && (k < u.switches || (k == u.switches && j <= u.cases));
    assert l == Aux(k, j) && (k < v.switches || (k == v.switches && j <= v.cases));
  }

  /** The labels behind the unfolding (`t`) are those before it (`s`) and some that it made, all of these defined. */
  ghost predicate Matches(u: Unfolding, s: LabelState, t: LabelState) {
    && s.defined <= t.defined
    && (forall l :: l in t.defined ==> l in s.defined || Made(u, l))
    && (forall l :: l in t.reachable ==> l in s.reachable || (l in t.defined && Made(u, l)))
    && (forall l :: l in s.defined + s.reachable ==> IsUser(l))
  }

  /** A default is kept only inside a switch, and was met in the same function. */
  ghost predicate DefaultKept(u: Unfolding, state: State, s: LabelState) {
    u.default != "" ==> state == InsnSwitch && u.default in s.reachable
  }

  lemma ComparisonLabels(u: Unfolding, value: int, name: Label, s: LabelState, t: LabelState)
    requires Matches(u, s, t) && name in s.reachable
    ensures
      var one := Comparison(u, value, name);
      LabelsOk(t, one) && Matches(u.(cases := u.cases + 1), s, LabelsAfter(t, one))
  {
    var aux, v := Aux(u.switches, u.cases + 1), u.(cases := u.cases + 1);
    LabelsThree(t, Compare(u.src, value), Cond(name, aux), BbOpen(aux));
    forall l | l in t.defined
      ensures l != aux && (l in s.defined || Made(v, l))
    {
      NextAuxIsNew(u, l);
      if Made(u, l) {
        MadeMore(u, l, v);
      }
    }
    forall l | l in t.reachable
      ensures l in s.reachable || (l in t.defined && Made(v, l))
    {
      if l !in s.reachable {
        MadeMore(u, l, v);
      }
    }
    assert Made(v, aux);
    assert t.reachable + {} == t.reachable;
  }

  lemma {:induction false} ComparisonsLabels(u: Unfolding, lo: int, n: nat, name: Label, s: LabelState, t: LabelState)
    requires Matches(u, s, t) && name in s.reachable
    ensures
      var all := Comparisons(u, lo, n, name);
      LabelsOk(t, all) && Matches(u.(cases := u.cases + n), s, LabelsAfter(t, all))
    decreases n
  {
    hide Matches, LabelsOk, LabelsAfter, Comparison, Aux;
    if n == 0 {
      assert u.(cases := u.cases + n) == u;
      LabelsNone(t);
    } else {
      ComparisonsLabels(u, lo, n - 1, name, s, t);
      var most, v := Comparisons(u, lo, n - 1, name), u.(cases := u.cases + n - 1);
      ComparisonLabels(v, lo + n - 1, name, s, LabelsAfter(t, most));
      LabelsJoin(t, most, Comparison(v, lo + n - 1, name));
    }
  }

  lemma LabelsNone(t: LabelState)
    ensures LabelsOk(t, []) && LabelsAfter(t, []) == t
  {
  }

  /** The labels of the stream change, and those behind still match. */
  lemma MatchesStep(u: Unfolding, e: Event, s: LabelState, t: LabelState)
    requires Matches(u, s, t) && UserEvent(e) && LabelsFine(s, e)
    ensures !(e.FncOpen? || e.BbOpen?) ==> Matches(u, LabelsNext(s, e), t)
    ensures LabelsFine(t, e) && Matches(u, LabelsNext(s, e), LabelsNext(t, e))
  {
    if e.BbOpen? {
      assert IsUser(e.name);
      if Made(u, e.name) {
        MadeIsNoUser(u, e.name);
      }
    }
  }

  lemma EmittedLabels(u: Unfolding, e: Event, state: State, s: LabelState, t: LabelState)
    requires Matches(u, s, t) && DefaultKept(u, state, s) && UserEvent(e)
    requires Expect(state, e).0 && LabelsFine(s, e) && !Traps(u, e)
    ensures LabelsOk(t, Emitted(u, e))
    ensures Matches(Next(u, e), LabelsNext(s, e), LabelsAfter(t, Emitted(u, e)))
    ensures DefaultKept(Next(u, e), Expect(state, e).1, LabelsNext(s, e))
  {
    hide Matches;
    MatchesStep(u, e, s, t);
    match e {
      case SwitchOpen(src) =>
        LabelsNone(t);
        MatchesState(u, Next(u, e), LabelsNext(s, e), t);
      case SwitchDefault(_) =>
        LabelsNone(t);
        MatchesState(u, Next(u, e), LabelsNext(s, e), t);
      case SwitchCase(lo, hi, name) =>
        ComparisonsLabels(u, lo, RangeSize(lo, hi), name, LabelsNext(s, e), t);
      case SwitchClose =>
        LabelsOne(t, Jmp(u.default));
        DefaultMatches(u, s, t);
        MatchesState(u, Next(u, e), LabelsNext(s, e), LabelsNext(t, Jmp(u.default)));
      case _ =>
        LabelsOne(t, e);
    }
  }

  lemma MatchesState(u: Unfolding, v: Unfolding, s: LabelState, t: LabelState)
    requires Matches(u, s, t) && (u.switches < v.switches || (u.switches == v.switches && u.cases <= v.cases))
    ensures Matches(v, s, t)
  {
    forall l | Made(u, l)
      ensures Made(v, l)
    {
      MadeMore(u, l, v);
    }
  }

  lemma DefaultMatches(u: Unfolding, s: LabelState, t: LabelState)
    requires Matches(u, s, t) && u.default in s.reachable
    ensures Matches(u, LabelsNext(s, SwitchClose), LabelsNext(t, Jmp(u.default)))
  {
  }

  /** A stream whose callbacks and labels are in order is unfolded to one whose labels are in order. */
  lemma {:induction false} UnfoldKeepsLabels(u: Unfolding, es: Stream, state: State, s: LabelState, t: LabelState)
    requires Matches(u, s, t) && DefaultKept(u, state, s) && UserStream(es)
    requires InOrder(state, es) && LabelsOk(s, es) && NeverTraps(u, es)
    ensures LabelsOk(t, Unfold(u, es))
    ensures Matches(NextAll(u, es), LabelsAfter(s, es), LabelsAfter(t, Unfold(u, es)))
    ensures DefaultKept(NextAll(u, es), After(state, es), LabelsAfter(s, es))
    decreases |es|
  {
    hide Matches, Emitted, Next, Expect, LabelsNext, LabelsFine, Traps;
    if es == [] {
      LabelsNone(t);
    } else {
      var before, e := es[..|es| - 1], es[|es| - 1];
      UnfoldKeepsLabels(u, before, state, s, t);
      var v := NextAll(u, before);
      EmittedLabels(v, e, After(state, before), LabelsAfter(s, before), LabelsAfter(t, Unfold(u, before)));
      LabelsJoin(t, Unfold(u, before), Emitted(v, e));
    }
  }
}
