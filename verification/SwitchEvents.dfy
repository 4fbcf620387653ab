/** The stream of callbacks by which a function is handed over, and the two filters that check it. */
module SwitchEvents {
  import opened Labels

  /** `Plain` stands for instructions that neither leave the block nor open anything, `Compare` for those that the
      unfolding makes; `src` names the operand. */
  datatype Event =
    | FileOpen | FileClose | FncOpen | FncArg | FncClose | BbOpen(name: Label)
    | Jmp(name: Label) | Cond(onTrue: Label, onFalse: Label) | Plain | Compare(src: nat, cst: int) | Ret | Abort
    | CallOpen | CallArg | CallClose
    | SwitchOpen(src: nat) | SwitchCase(lo: int, hi: int, name: Label) | SwitchDefault(name: Label) | SwitchClose
    | Acknowledge | Destroy

  type Stream = seq<Event>

  // ---------- the order of callbacks ----------

  datatype State = Init | FileLevel | FncDecl | FncBody | BlockLevel | InsnCall | InsnSwitch | Acknowledged | Destroyed

  /** Whether the state may be set from `state` to `next`. */
  predicate MaySet(state: State, next: State) {
    match state
    case Init => next in {FileLevel, Acknowledged, Destroyed}
    case FileLevel => next in {Init, FncDecl, Destroyed}
    case FncBody => next in {BlockLevel, FileLevel}
    case BlockLevel => next in {InsnCall, InsnSwitch}
    case Acknowledged => next == Destroyed
    case _ => false
  }

  /** What a callback needs and where it leads, as a value: whether it is expected, and the state after it. */
  function Expect(state: State, e: Event): (bool, State) {
    match e
    case FileOpen => (MaySet(state, FileLevel), FileLevel)
    case FileClose => (MaySet(state, Init), Init)
    case FncOpen => (MaySet(state, FncDecl), FncDecl)
    case FncArg => (state == FncDecl, state)
    case FncClose => (MaySet(state, FileLevel), FileLevel)
    case BbOpen(_) => (MaySet(state, BlockLevel), BlockLevel)
    case Jmp(_) => (state in {FncDecl, BlockLevel}, FncBody)
    case Cond(_, _) => (state == BlockLevel, FncBody)
    case Plain => (state == BlockLevel, state)
    case Compare(_, _) => (state == BlockLevel, state)
    case Ret => (state == BlockLevel, FncBody)
    case Abort => (state == BlockLevel, FncBody)
    case CallOpen => (MaySet(state, InsnCall), InsnCall)
    case CallArg => (state == InsnCall, state)
    case CallClose => (state == InsnCall, BlockLevel)
    case SwitchOpen(_) => (MaySet(state, InsnSwitch), InsnSwitch)
    case SwitchCase(_, _, _) => (state == InsnSwitch, state)
    case SwitchDefault(_) => (state == InsnSwitch, state)
    case SwitchClose => (state == InsnSwitch, FncBody)
    case Acknowledge => (MaySet(state, Acknowledged), Acknowledged)
    case Destroy => (MaySet(state, Destroyed), Destroyed)
  }

  /** The state after a stream, whether expected or not. */
  function After(state: State, es: Stream): State {
    if es == [] then state else Expect(After(state, es[..|es| - 1]), es[|es| - 1]).1
  }

  /** Every callback of the stream is expected. */
  predicate InOrder(state: State, es: Stream) {
    es == [] ||
    (InOrder(state, es[..|es| - 1]) && Expect(After(state, es[..|es| - 1]), es[|es| - 1]).0)
  }

  lemma {:induction false} InOrderJoin(state: State, es: Stream, fs: Stream)
    ensures After(state, es + fs) == After(After(state, es), fs)
    ensures InOrder(state, es + fs) <==> InOrder(state, es) && InOrder(After(state, es), fs)
    decreases |fs|
  {
    if fs == [] {
      assert es + fs == es;
    } else {
      InOrderJoin(state, es, fs[..|fs| - 1]);
      assert (es + fs)[..|es + fs| - 1] == es + fs[..|fs| - 1];
    }
  }

  lemma InOrderOne(state: State, e: Event)
    ensures InOrder(state, [e]) == Expect(state, e).0 && After(state, [e]) == Expect(state, e).1
  {
    assert [e][..0] == [];
    assert InOrder(state, []) && After(state, []) == state;
  }

  lemma InOrderThree(state: State, e: Event, f: Event, g: Event)
    ensures
      var second, third := Expect(state, e).1, Expect(Expect(state, e).1, f).1;
      && InOrder(state, [e, f, g]) == (Expect(state, e).0 && Expect(second, f).0 && Expect(third, g).0)
      && After(state, [e, f, g]) == Expect(third, g).1
  {
    InOrderOne(state, e);
    InOrderOne(Expect(state, e).1, f);
    InOrderOne(Expect(Expect(state, e).1, f).1, g);
    InOrderJoin(state, [e], [f]);
    InOrderJoin(state, [e] + [f], [g]);
    assert [e] + [f] + [g] == [e, f, g];
  }

  /** The filter that checks the order: `errors` counts unexpected callbacks. */
  class ClfCbSeqChk {
    var state: State
    var errors: nat

    constructor ()
      ensures state == Init && errors == 0
    {
      state, errors := Init, 0;
    }

    /** An error is counted for a state that may not follow; once destroyed, the filter stops there. */
    method SetState(next: State) returns (trapped: bool)
      modifies this
      ensures trapped <==> old(state) == Destroyed
      ensures state == if trapped then old(state) else next
      ensures errors == old(errors) + if MaySet(old(state), next) then 0 else 1
    {
      trapped := false;
      match state {
        case Init =>
          if !(next in {FileLevel, Acknowledged, Destroyed}) { errors := errors + 1; }
        case FileLevel =>
          if !(next in {Init, FncDecl, Destroyed}) { errors := errors + 1; }
        case FncBody =>
          if !(next in {BlockLevel, FileLevel}) { errors := errors + 1; }
        case BlockLevel =>
          if !(next in {InsnCall, InsnSwitch}) { errors := errors + 1; }
        case Acknowledged =>
          if next != Destroyed { errors := errors + 1; }
        case FncDecl | InsnCall | InsnSwitch =>
          errors := errors + 1;
        case Destroyed =>
          errors := errors + 1;
          return true;
      }
      state := next;
    }

    /** Instructions and parts of instructions that need a certain state. */
    method Check(allowed: set<State>, next: State)
      modifies this
      ensures state == next && errors == old(errors) + if old(state) in allowed then 0 else 1
    {
      if state !in allowed {
        errors := errors + 1;
      }
      state := next;
    }

    method Callback(e: Event) returns (trapped: bool)
      modifies this
      ensures trapped <==> StopsAt(old(state), e)
      ensures !trapped ==> state == Expect(old(state), e).1
      ensures errors == old(errors) + if Expect(old(state), e).0 then 0 else 1
    {
      trapped := false;
      match e {
        case FileOpen => trapped := SetState(FileLevel);
        case FileClose => trapped := SetState(Init);
        case FncOpen => trapped := SetState(FncDecl);
        case FncArg => Check({FncDecl}, state);
        case FncClose => trapped := SetState(FileLevel);
        case BbOpen(_) => trapped := SetState(BlockLevel);
        case Jmp(_) => Check({FncDecl, BlockLevel}, FncBody);
        case Cond(_, _) => Check({BlockLevel}, FncBody);
        case Plain => Check({BlockLevel}, state);
        case Compare(_, _) => Check({BlockLevel}, state);
        case Ret => Check({BlockLevel}, FncBody);
        case Abort => Check({BlockLevel}, FncBody);
        case CallOpen => trapped := SetState(InsnCall);
        case CallArg => Check({InsnCall}, state);
        case CallClose => Check({InsnCall}, BlockLevel);
        case SwitchOpen(_) => trapped := SetState(InsnSwitch);
        case SwitchCase(_, _, _) => Check({InsnSwitch}, state);
        case SwitchDefault(_) => Check({InsnSwitch}, state);
        case SwitchClose => Check({InsnSwitch}, FncBody);
        case Acknowledge => trapped := SetState(Acknowledged);
        case Destroy => trapped := SetState(Destroyed);
      }
    }

    /** No error is counted if and only if every callback comes in order; it stops only where one does not. */
    method Run(es: Stream) returns (trapped: bool)
      modifies this
      ensures trapped <==> exists i :: 0 <= i < |es| && StopsAt(After(old(state), es[..i]), es[i])
      ensures !trapped ==> state == After(old(state), es)
      ensures old(errors) <= errors && (errors == old(errors) <==> InOrder(old(state), es))
    {
      hide Expect, MaySet, After, InOrder, StopsAt;
      NoneInOrder(state);
      assert es[..0] == [];
      for i := 0 to |es|
        invariant state == After(old(state), es[..i])
        invariant forall j :: 0 <= j < i ==> !StopsAt(After(old(state), es[..j]), es[j])
        invariant old(errors) <= errors && (errors == old(errors) <==> InOrder(old(state), es[..i]))
      {
        InOrderNext(old(state), es, i);
        trapped := Callback(es[i]);
        if trapped {
          StopsUnexpected(After(old(state), es[..i]), es[i]);
          InOrderPrefix(old(state), es, i + 1);
          return;
        }
      }
      assert es[..|es|] == es;
      trapped := false;
    }
  }

  /** Callbacks that set the state, other than by what they need. */
  predicate Sets(e: Event) {
    e.FileOpen? || e.FileClose? || e.FncOpen? || e.FncClose? || e.BbOpen? || e.CallOpen? || e.SwitchOpen? ||
    e.Acknowledge? || e.Destroy?
  }

  /** Nothing may come once all is destroyed. */
  predicate StopsAt(state: State, e: Event) {
    state == Destroyed && Sets(e)
  }

  lemma StopsUnexpected(state: State, e: Event)
    requires StopsAt(state, e)
    ensures !Expect(state, e).0
  {}

  lemma NoneInOrder(state: State)
    ensures After(state, []) == state && InOrder(state, [])
  {}

  lemma InOrderNext(state: State, es: Stream, i: nat)
    requires i < |es|
    ensures After(state, es[..i + 1]) == Expect(After(state, es[..i]), es[i]).1
    ensures InOrder(state, es[..i + 1]) <==> InOrder(state, es[..i]) && Expect(After(state, es[..i]), es[i]).0
  {
    hide Expect;
    assert es[..i + 1][..i] == es[..i];
  }

  lemma {:induction false} InOrderPrefix(state: State, es: Stream, i: nat)
    requires i <= |es|
    ensures InOrder(state, es) ==> InOrder(state, es[..i])
    decreases |es|
  {
    if i < |es| {
      InOrderPrefix(state, es[..|es| - 1], i);
      assert es[..|es| - 1][..i] == es[..i];
    } else {
      assert es[..i] == es;
    }
  }

  // ---------- labels ----------

  /** The labels defined in the current function, and those something leads to. */
  datatype LabelState = LabelState(defined: set<Label>, reachable: set<Label>)

  function Required(e: Event): set<Label> {
    match e
    case Jmp(l) => {l}
    case Cond(t, f) => {t, f}
    case SwitchCase(_, _, l) => {l}
    case SwitchDefault(l) => {l}
    case _ => {}
  }

  function LabelsNext(s: LabelState, e: Event): LabelState {
    match e
    case FncOpen => LabelState({}, {})
    case BbOpen(l) => s.(defined := s.defined + {l})
    case _ => s.(reachable := s.reachable + Required(e))
  }

  /** No label is defined twice, and when a function is closed everything that leads somewhere leads to
      a defined one. */
  predicate LabelsFine(s: LabelState, e: Event) {
    match e
    case BbOpen(l) => l !in s.defined
    case FncClose => s.reachable <= s.defined
    case _ => true
  }

  function LabelsAfter(s: LabelState, es: Stream): LabelState {
    if es == [] then s else LabelsNext(LabelsAfter(s, es[..|es| - 1]), es[|es| - 1])
  }

  predicate LabelsOk(s: LabelState, es: Stream) {
    es == [] || (LabelsOk(s, es[..|es| - 1]) && LabelsFine(LabelsAfter(s, es[..|es| - 1]), es[|es| - 1]))
  }

  lemma {:induction false} LabelsJoin(s: LabelState, es: Stream, fs: Stream)
    ensures LabelsAfter(s, es + fs) == LabelsAfter(LabelsAfter(s, es), fs)
    ensures LabelsOk(s, es + fs) <==> LabelsOk(s, es) && LabelsOk(LabelsAfter(s, es), fs)
    decreases |fs|
  {
    if fs == [] {
      assert es + fs == es;
    } else {
      LabelsJoin(s, es, fs[..|fs| - 1]);
      assert (es + fs)[..|es + fs| - 1] == es + fs[..|fs| - 1];
    }
  }

  lemma LabelsOne(s: LabelState, e: Event)
    ensures LabelsOk(s, [e]) == LabelsFine(s, e) && LabelsAfter(s, [e]) == LabelsNext(s, e)
  {
    assert [e][..0] == [];
    assert LabelsOk(s, []) && LabelsAfter(s, []) == s;
  }

  lemma LabelsThree(s: LabelState, e: Event, f: Event, g: Event)
    ensures
      var second, third := LabelsNext(s, e), LabelsNext(LabelsNext(s, e), f);
      && LabelsOk(s, [e, f, g]) == (LabelsFine(s, e) && LabelsFine(second, f) && LabelsFine(third, g))
      && LabelsAfter(s, [e, f, g]) == LabelsNext(third, g)
  {
    LabelsOne(s, e);
    LabelsOne(LabelsNext(s, e), f);
    LabelsOne(LabelsNext(LabelsNext(s, e), f), g);
    LabelsJoin(s, [e], [f]);
    LabelsJoin(s, [e] + [f], [g]);
    assert [e] + [f] + [g] == [e, f, g];
  }

  /** The filter that checks labels: `map_` tells of each label met whether it is defined and whether
      it is reachable. */
  class ClfLabelChk {
    var map_: map<Label, (bool, bool)>
    var errors: nat

    constructor ()
      ensures Valid() && State() == LabelState({}, {}) && errors == 0
    {
      map_, errors := map[], 0;
    }

    /** Labels are met by being defined or by something leading to them. */
    ghost predicate Valid()
      reads this
    {
      forall l :: l in map_ ==> map_[l].0 || map_[l].1
    }

    ghost function State(): LabelState
      reads this
    {
      LabelState(set l | l in map_ && map_[l].0, set l | l in map_ && map_[l].1)
    }

    method DefineLabel(name: Label)
      requires Valid()
      modifies this
      ensures Valid()
      ensures State() == old(State()).(defined := old(State()).defined + {name})
      ensures errors == old(errors) + if name in old(State()).defined then 1 else 0
    {
      var ls := if name in map_ then map_[name] else (false, false);
      if ls.0 {
        errors := errors + 1;
      }
      map_ := map_[name := (true, ls.1)];
    }

    method ReqLabel(name: Label)
      requires Valid()
      modifies this
      ensures Valid()
      ensures State() == old(State()).(reachable := old(State()).reachable + {name})
      ensures errors == old(errors)
    {
      var ls := if name in map_ then map_[name] else (false, false);
      map_ := map_[name := (ls.0, true)];
    }

    /** Counts the labels that something leads to and that are not defined. Merely unreachable ones are no error. */
    method EmitWarnings()
      requires Valid()
      modifies this`errors
      ensures old(errors) <= errors && (errors == old(errors) <==> State().reachable <= State().defined)
    {
      var rest := map_.Keys;
      while rest != {}
        invariant rest <= map_.Keys && old(errors) <= errors
        invariant errors == old(errors) <==> forall l :: l in map_ && l !in rest ==> map_[l].0
      {
        var l :| l in rest;
        rest := rest - {l};
        if !map_[l].0 {
          errors := errors + 1;
        }
      }
      if State().reachable <= State().defined {
        forall l | l in map_
          ensures map_[l].0
        {
          assert map_[l].1 ==> l in State().reachable;
        }
      }
    }

    method Callback(e: Event)
      requires Valid()
      modifies this
      ensures Valid() && State() == LabelsNext(old(State()), e)
      ensures old(errors) <= errors && (errors == old(errors) <==> LabelsFine(old(State()), e))
    {
      match e {
        case FncOpen => map_ := map[];
        case FncClose => EmitWarnings();
        case BbOpen(l) => DefineLabel(l);
        case Jmp(l) => ReqLabel(l);
        case Cond(t, f) =>
          ReqLabel(t);
          ReqLabel(f);
          assert old(State()).reachable + {t} + {f} == old(State()).reachable + {t, f};
        case SwitchCase(_, _, l) => ReqLabel(l);
        case SwitchDefault(l) => ReqLabel(l);
        case _ =>
          assert State().reachable + {} == State().reachable;
      }
    }

    /** No error is counted if and only if the labels of the stream are in order. */
    method Run(es: Stream)
      requires Valid()
      modifies this
      ensures Valid() && State() == LabelsAfter(old(State()), es)
      ensures old(errors) <= errors && (errors == old(errors) <==> LabelsOk(old(State()), es))
    {
      for i := 0 to |es|
        invariant Valid() && State() == LabelsAfter(old(State()), es[..i])
        invariant old(errors) <= errors && (errors == old(errors) <==> LabelsOk(old(State()), es[..i]))
      {
        assert es[..i + 1][..i] == es[..i];
        Callback(es[i]);
      }
      assert es[..|es|] == es;
    }
  }
}
