/** Which streams of callbacks the two checking filters accept: told by how files, functions, blocks, calls and switches
    nest, and by which labels each function defines and leads to. */
module CallbackGrammar {
  import opened Labels
  import opened SwitchEvents

  // ---------- nested programs ----------

  datatype Case = Range(lo: int, hi: int, name: Label) | Default(name: Label)

  datatype Instruction = Ordinary | Comparison(src: nat, cst: int) | CallOf(args: nat)

  datatype Ending =
    | Goes(name: Label) | Branches(onTrue: Label, onFalse: Label) | Returns | Stops
    | Switches(src: nat, cases: seq<Case>)

  datatype CodeBlock = CodeBlock(name: Label, insns: seq<Instruction>, end: Ending)

  /** A function jumps to its entry first. */
  datatype Function = Function(args: nat, entry: Label, blocks: seq<CodeBlock>)

  datatype File = File(fncs: seq<Function>)

  // ---------- as streams ----------

  /** `e` written `n` times behind `front`. */
  function Times(front: Stream, e: Event, n: nat): Stream {
    if n == 0 then front else Times(front, e, n - 1) + [e]
  }

  function WriteCase(front: Stream, c: Case): Stream {
    match c
    case Range(lo, hi, name) => front + [SwitchCase(lo, hi, name)]
    case Default(name) => front + [SwitchDefault(name)]
  }

  function WriteCases(front: Stream, cases: seq<Case>): Stream {
    if cases == [] then front else WriteCase(WriteCases(front, cases[..|cases| - 1]), cases[|cases| - 1])
  }

  function WriteInsn(front: Stream, insn: Instruction): Stream {
    match insn
    case Ordinary => front + [Plain]
    case Comparison(src, cst) => front + [Compare(src, cst)]
    case CallOf(args) => Times(front + [CallOpen], CallArg, args) + [CallClose]
  }

  function WriteInsns(front: Stream, insns: seq<Instruction>): Stream {
    if insns == [] then front else WriteInsn(WriteInsns(front, insns[..|insns| - 1]), insns[|insns| - 1])
  }

  function WriteEnd(front: Stream, end: Ending): Stream {
    match end
    case Goes(name) => front + [Jmp(name)]
    case Branches(t, f) => front + [Cond(t, f)]
    case Returns => front + [Ret]
    case Stops => front + [Abort]
    case Switches(src, cases) => WriteCases(front + [SwitchOpen(src)], cases) + [SwitchClose]
  }

  function WriteBlock(front: Stream, b: CodeBlock): Stream {
    WriteEnd(WriteInsns(front + [BbOpen(b.name)], b.insns), b.end)
  }

  function WriteBlocks(front: Stream, blocks: seq<CodeBlock>): Stream {
    if blocks == [] then front else WriteBlock(WriteBlocks(front, blocks[..|blocks| - 1]), blocks[|blocks| - 1])
  }

  function WriteHead(front: Stream, args: nat, entry: Label): Stream {
    Times(front + [FncOpen], FncArg, args) + [Jmp(entry)]
  }

  function WriteFunction(front: Stream, f: Function): Stream {
    WriteBlocks(WriteHead(front, f.args, f.entry), f.blocks) + [FncClose]
  }

  function WriteFunctions(front: Stream, fs: seq<Function>): Stream {
    if fs == [] then front else WriteFunction(WriteFunctions(front, fs[..|fs| - 1]), fs[|fs| - 1])
  }

  function WriteFiles(files: seq<File>): Stream {
    if files == [] then []
    else WriteFunctions(WriteFiles(files[..|files| - 1]) + [FileOpen], files[|files| - 1].fncs) + [FileClose]
  }

  /** The filter does not tell the closing of a function from the opening of a file. */
  predicate Alike(e: Event, f: Event) {
    e == f || (e in {FileOpen, FncClose} && f in {FileOpen, FncClose})
  }

  ghost predicate AllAlike(es: Stream, fs: Stream) {
    |es| == |fs| && forall i :: 0 <= i < |es| ==> Alike(es[i], fs[i])
  }

  // ---------- nested programs are in order ----------

  /** In order from the start on, and in `state` then. */
  predicate Reaches(es: Stream, state: State) {
    InOrder(Init, es) && After(Init, es) == state
  }

  lemma ReachesNext(es: Stream, state: State, e: Event)
    requires Reaches(es, state)
    ensures Expect(state, e).0 ==> Reaches(es + [e], Expect(state, e).1)
  {
    hide Expect;
    assert (es + [e])[..|es|] == es;
  }

  lemma {:induction false} TimesReaches(front: Stream, state: State, e: Event, n: nat)
    requires Reaches(front, state) && Expect(state, e) == (true, state)
    ensures Reaches(Times(front, e, n), state)
    decreases n
  {
    hide Reaches;
    if n > 0 {
      TimesReaches(front, state, e, n - 1);
      ReachesNext(Times(front, e, n - 1), state, e);
    }
  }

  lemma {:induction false} CasesReach(front: Stream, cases: seq<Case>)
    requires Reaches(front, InsnSwitch)
    ensures Reaches(WriteCases(front, cases), InsnSwitch)
    decreases |cases|
  {
    hide Reaches;
    if cases != [] {
      var n := |cases| - 1;
      CasesReach(front, cases[..n]);
      match cases[n] {
        case Range(lo, hi, name) => ReachesNext(WriteCases(front, cases[..n]), InsnSwitch, SwitchCase(lo, hi, name));
        case Default(name) => ReachesNext(WriteCases(front, cases[..n]), InsnSwitch, SwitchDefault(name));
      }
    }
  }

  lemma {:induction false} InsnsReach(front: Stream, insns: seq<Instruction>)
    requires Reaches(front, BlockLevel)
    ensures Reaches(WriteInsns(front, insns), BlockLevel)
    decreases |insns|
  {
    hide Reaches;
    if insns != [] {
      var n := |insns| - 1;
      InsnsReach(front, insns[..n]);
      var before := WriteInsns(front, insns[..n]);
      match insns[n] {
        case Ordinary => ReachesNext(before, BlockLevel, Plain);
        case Comparison(src, cst) => ReachesNext(before, BlockLevel, Compare(src, cst));
        case CallOf(args) =>
          ReachesNext(before, BlockLevel, CallOpen);
          TimesReaches(before + [CallOpen], InsnCall, CallArg, args);
          ReachesNext(Times(before + [CallOpen], CallArg, args), InsnCall, CallClose);
      }
    }
  }

  lemma EndReaches(front: Stream, end: Ending)
    requires Reaches(front, BlockLevel)
    ensures Reaches(WriteEnd(front, end), FncBody)
  {
    hide Reaches;
    match end {
      case Goes(name) => ReachesNext(front, BlockLevel, Jmp(name));
      case Branches(t, f) => ReachesNext(front, BlockLevel, Cond(t, f));
      case Returns => ReachesNext(front, BlockLevel, Ret);
      case Stops => ReachesNext(front, BlockLevel, Abort);
      case Switches(src, cases) =>
        ReachesNext(front, BlockLevel, SwitchOpen(src));
        CasesReach(front + [SwitchOpen(src)], cases);
        ReachesNext(WriteCases(front + [SwitchOpen(src)], cases), InsnSwitch, SwitchClose);
    }
  }

  lemma {:induction false} BlocksReach(front: Stream, blocks: seq<CodeBlock>)
    requires Reaches(front, FncBody)
    ensures Reaches(WriteBlocks(front, blocks), FncBody)
    decreases |blocks|
  {
    hide Reaches;
    if blocks != [] {
      var n := |blocks| - 1;
      BlocksReach(front, blocks[..n]);
      var before, b := WriteBlocks(front, blocks[..n]), blocks[n];
      ReachesNext(before, FncBody, BbOpen(b.name));
      InsnsReach(before + [BbOpen(b.name)], b.insns);
      EndReaches(WriteInsns(before + [BbOpen(b.name)], b.insns), b.end);
    }
  }

  lemma {:induction false} FunctionsReach(front: Stream, fs: seq<Function>)
    requires Reaches(front, FileLevel)
    ensures Reaches(WriteFunctions(front, fs), FileLevel)
    decreases |fs|
  {
    hide Reaches;
    if fs != [] {
      var n := |fs| - 1;
      FunctionsReach(front, fs[..n]);
      var before, f := WriteFunctions(front, fs[..n]), fs[n];
      ReachesNext(before, FileLevel, FncOpen);
      TimesReaches(before + [FncOpen], FncDecl, FncArg, f.args);
      ReachesNext(Times(before + [FncOpen], FncArg, f.args), FncDecl, Jmp(f.entry));
      BlocksReach(WriteHead(before, f.args, f.entry), f.blocks);
      ReachesNext(WriteBlocks(WriteHead(before, f.args, f.entry), f.blocks), FncBody, FncClose);
    }
  }

  lemma {:induction false} FilesReach(files: seq<File>)
    ensures Reaches(WriteFiles(files), Init)
    decreases |files|
  {
    if files != [] {
      hide Reaches;
      var n := |files| - 1;
      FilesReach(files[..n]);
      ReachesNext(WriteFiles(files[..n]), Init, FileOpen);
      FunctionsReach(WriteFiles(files[..n]) + [FileOpen], files[n].fncs);
      ReachesNext(WriteFunctions(WriteFiles(files[..n]) + [FileOpen], files[n].fncs), FileLevel, FileClose);
    }
  }

  lemma {:induction false} AlikeInOrder(es: Stream, fs: Stream)
    requires AllAlike(es, fs)
    ensures InOrder(Init, es) == InOrder(Init, fs) && After(Init, es) == After(Init, fs)
    decreases |es|
  {
    hide Expect;
    if es != [] {
      var n := |es| - 1;
      AlikeInOrder(es[..n], fs[..n]);
      AlikeExpected(After(Init, es[..n]), es[n], fs[n]);
    }
  }

  lemma AlikeExpected(state: State, e: Event, f: Event)
    requires Alike(e, f)
    ensures Expect(state, e) == Expect(state, f)
  {}

  // ---------- what is in order is the beginning of a nested program ----------

  /** A program of which the last file may not be complete, nor its last function, block, call or switch. */
  datatype Opened = Opened(files: seq<File>, fncs: seq<Function>, args: nat, entry: Label, blocks: seq<CodeBlock>,
                           name: Label, insns: seq<Instruction>, callArgs: nat, src: nat, cases: seq<Case>)

  function AtFile(o: Opened): Stream {
    WriteFunctions(WriteFiles(o.files) + [FileOpen], o.fncs)
  }

  function AtBody(o: Opened): Stream {
    WriteBlocks(WriteHead(AtFile(o), o.args, o.entry), o.blocks)
  }

  function AtBlock(o: Opened): Stream {
    WriteInsns(AtBody(o) + [BbOpen(o.name)], o.insns)
  }

  /** What was written when the filter is in `state`. */
  function Written(o: Opened, state: State): Stream {
    match state
    case Init => WriteFiles(o.files)
    case FileLevel => AtFile(o)
    case FncDecl => Times(AtFile(o) + [FncOpen], FncArg, o.args)
    case FncBody => AtBody(o)
    case BlockLevel => AtBlock(o)
    case InsnCall => Times(AtBlock(o) + [CallOpen], CallArg, o.callArgs)
    case InsnSwitch => WriteCases(AtBlock(o) + [SwitchOpen(o.src)], o.cases)
    case Acknowledged => []
    case Destroyed => []
  }

  predicate Ends(e: Event) {
    e.Acknowledge? || e.Destroy?
  }

  lemma AlikeMore(es: Stream, fs: Stream, e: Event, f: Event)
    requires AllAlike(es, fs) && Alike(e, f)
    ensures AllAlike(es + [e], fs + [f])
  {}

  /** One callback more, as part of what is open. */
  lemma WrittenNext(o: Opened, state: State, e: Event) returns (next: Opened, f: Event)
    requires Expect(state, e).0 && !Ends(e)
    ensures Alike(e, f) && Written(next, Expect(state, e).1) == Written(o, state) + [f]
  {
    if state in {Init, FileLevel, FncDecl, FncBody} {
      next, f := OutsideNext(o, state, e);
    } else {
      next := InsideNext(o, state, e);
      f := e;
    }
  }

  /** Outside blocks. */
  lemma OutsideNext(o: Opened, state: State, e: Event) returns (next: Opened, f: Event)
    requires Expect(state, e).0 && !Ends(e) && state in {Init, FileLevel, FncDecl, FncBody}
    ensures Alike(e, f) && Written(next, Expect(state, e).1) == Written(o, state) + [f]
  {
    next, f := o, e;
    match e {
      case FileOpen => next, f := OpenOrClose(o, state);
      case FncClose => next, f := OpenOrClose(o, state);
      case FileClose =>
        next := o.(files := o.files + [File(o.fncs)]);
        assert next.files[..|o.files|] == o.files;
      case FncOpen => next := o.(args := 0);
      case FncArg => next := o.(args := o.args + 1);
      case BbOpen(name) => next := o.(name := name, insns := []);
      case Jmp(name) => next := o.(entry := name, blocks := []);
      case _ =>
    }
  }

  /** In a block. */
  lemma InsideNext(o: Opened, state: State, e: Event) returns (next: Opened)
    requires Expect(state, e).0 && !Ends(e) && state !in {Init, FileLevel, FncDecl, FncBody}
    ensures Written(next, Expect(state, e).1) == Written(o, state) + [e]
  {
    hide AtBody, AtBlock;
    next := o;
    match e {
      case Jmp(name) => next := Ended(o, Goes(name));
      case Cond(t, u) => next := Ended(o, Branches(t, u));
      case Ret => next := Ended(o, Returns);
      case Abort => next := Ended(o, Stops);
      case Plain => next := Longer(o, Ordinary);
      case Compare(src, cst) => next := Longer(o, Comparison(src, cst));
      case CallOpen =>
        next := o.(callArgs := 0);
        SameBlock(o, next);
      case CallArg =>
        next := o.(callArgs := o.callArgs + 1);
        SameBlock(o, next);
      case CallClose => next := Longer(o, CallOf(o.callArgs));
      case SwitchOpen(src) =>
        next := o.(src := src, cases := []);
        SameBlock(o, next);
      case SwitchCase(lo, hi, name) => next := WithCase(o, Range(lo, hi, name));
      case SwitchDefault(name) => next := WithCase(o, Default(name));
      case SwitchClose => next := Ended(o, Switches(o.src, o.cases));
      case _ =>
    }
  }

  lemma SameBlock(o: Opened, next: Opened)
    requires next == o.(callArgs := next.callArgs, src := next.src, cases := next.cases)
    ensures AtBlock(next) == AtBlock(o)
  {}

  /** Either opens a file or closes a function, whichever comes now. */
  lemma OpenOrClose(o: Opened, state: State) returns (next: Opened, f: Event)
    requires state == Init || state == FncBody
    ensures f in {FileOpen, FncClose} && Written(next, FileLevel) == Written(o, state) + [f]
  {
    if state == Init {
      next, f := o.(fncs := []), FileOpen;
    } else {
      next, f := o.(fncs := o.fncs + [Function(o.args, o.entry, o.blocks)]), FncClose;
      assert next.fncs[..|o.fncs|] == o.fncs;
    }
  }

  function Longer(o: Opened, insn: Instruction): (next: Opened)
    ensures AtBlock(next) == WriteInsn(AtBlock(o), insn)
  {
    var next := o.(insns := o.insns + [insn]);
    assert next.insns[..|o.insns|] == o.insns;
    next
  }

  function Ended(o: Opened, end: Ending): (next: Opened)
    ensures AtBody(next) == WriteEnd(AtBlock(o), end)
  {
    var next := o.(blocks := o.blocks + [CodeBlock(o.name, o.insns, end)]);
    assert next.blocks[..|o.blocks|] == o.blocks;
    next
  }

  function WithCase(o: Opened, c: Case): (next: Opened)
    ensures Written(next, InsnSwitch) == WriteCase(Written(o, InsnSwitch), c)
  {
    var next := o.(cases := o.cases + [c]);
    assert next.cases[..|o.cases|] == o.cases;
    next
  }

  lemma {:induction false} InOrderOpens(es: Stream) returns (o: Opened)
    requires InOrder(Init, es) && forall e :: e in es ==> !Ends(e)
    ensures AllAlike(es, Written(o, After(Init, es)))
    decreases |es|
  {
    hide Written;
    if es == [] {
      o := Opened([], [], 0, "", [], "", [], 0, 0, []);
      NothingOpened(o);
    } else {
      var n := |es| - 1;
      var before := InOrderOpens(es[..n]);
      var f;
      o, f := WrittenNext(before, After(Init, es[..n]), es[n]);
      AlikeMore(es[..n], Written(before, After(Init, es[..n])), es[n], f);
      assert es == es[..n] + [es[n]];
    }
  }

  lemma NothingOpened(o: Opened)
    requires o.files == []
    ensures Written(o, Init) == []
  {}

  lemma {:induction false} EndsStay(es: Stream)
    requires InOrder(Init, es) && exists e :: e in es && Ends(e)
    ensures After(Init, es) in {Acknowledged, Destroyed}
    decreases |es|
  {
    var n := |es| - 1;
    if !Ends(es[n]) {
      assert es == es[..n] + [es[n]];
      EndsStay(es[..n]);
    }
  }

  /** A stream is in order and complete if and only if it is that of nested files, functions, blocks, calls and
      switches, but that it may have a function closed where a file is to be opened, and the other way round. */
  lemma InOrderIffNested(es: Stream)
    ensures InOrder(Init, es) && After(Init, es) == Init <==> exists files :: AllAlike(es, WriteFiles(files))
  {
    if InOrder(Init, es) && After(Init, es) == Init {
      if exists e :: e in es && Ends(e) {
        EndsStay(es);
      }
      var o := InOrderOpens(es);
      assert AllAlike(es, WriteFiles(o.files));
    }
    if files :| AllAlike(es, WriteFiles(files)) {
      FilesReach(files);
      AlikeInOrder(es, WriteFiles(files));
    }
  }

  /** What closes the innermost of what is open, and how much is open. */
  function Closing(state: State): (Event, nat) {
    match state
    case FileLevel => (FileClose, 1)
    case FncBody => (FncClose, 2)
    case FncDecl => (Jmp(""), 3)
    case BlockLevel => (Ret, 3)
    case InsnSwitch => (SwitchClose, 3)
    case InsnCall => (CallClose, 4)
    case _ => (Destroy, 0)
  }

  /** Whatever is in order, and does not end all, is the beginning of such a stream. */
  lemma {:induction false} InOrderCompletes(es: Stream) returns (rest: Stream)
    requires InOrder(Init, es) && After(Init, es) !in {Acknowledged, Destroyed}
    ensures InOrder(Init, es + rest) && After(Init, es + rest) == Init
    decreases Closing(After(Init, es)).1
  {
    rest := [];
    if After(Init, es) == Init {
      assert es + rest == es;
    } else {
      var e := Closing(After(Init, es)).0;
      ReachesNext(es, After(Init, es), e);
      var more := InOrderCompletes(es + [e]);
      rest := [e] + more;
      assert es + rest == es + [e] + more;
    }
  }

  /** A function that is closed without having been opened passes for a file. */
  lemma ClosedForOpened()
    ensures InOrder(Init, [FncClose, FileClose]) && After(Init, [FncClose, FileClose]) == Init
  {
    ReachesNext([], Init, FncClose);
    ReachesNext([FncClose], FileLevel, FileClose);
    assert [] + [FncClose] == [FncClose] && [FncClose] + [FileClose] == [FncClose, FileClose];
  }

  // ---------- labels ----------

  ghost predicate LeadsTo(e: Event, l: Label) {
    match e
    case Jmp(name) => l == name
    case Cond(t, f) => l == t || l == f
    case SwitchCase(_, _, name) => l == name
    case SwitchDefault(name) => l == name
    case _ => false
  }

  /** No function is opened between the `k`th callback and the `n`th. */
  ghost predicate SameFunction(es: Stream, k: nat, n: nat) {
    k < n <= |es| && forall i :: k < i < n ==> !es[i].FncOpen?
  }

  /** Before the `n`th callback a block with this label was opened in the function. */
  ghost predicate DefinedBy(es: Stream, n: nat, l: Label) {
    exists k: nat :: SameFunction(es, k, n) && es[k] == BbOpen(l)
  }

  ghost predicate LedToBy(es: Stream, n: nat, l: Label) {
    exists k: nat :: SameFunction(es, k, n) && LeadsTo(es[k], l)
  }

  /** A block gets a label of its own; a function is closed when all labels that it leads to are defined. */
  ghost predicate FineAt(es: Stream, n: nat)
    requires n < |es|
  {
    match es[n]
    case BbOpen(l) => !DefinedBy(es, n, l)
    case FncClose => forall l :: LedToBy(es, n, l) ==> DefinedBy(es, n, l)
    case _ => true
  }

  lemma SameFunctionNext(es: Stream, e: Event, k: nat)
    ensures SameFunction(es + [e], k, |es| + 1) <==> k == |es| || (SameFunction(es, k, |es|) && !e.FncOpen?)
  {
    var more := es + [e];
    assert forall i :: 0 <= i < |es| ==> more[i] == es[i];
    assert more[|es|] == e;
  }

  lemma KnownNext(es: Stream, e: Event, l: Label)
    ensures DefinedBy(es + [e], |es| + 1, l) <==> e == BbOpen(l) || (DefinedBy(es, |es|, l) && !e.FncOpen?)
    ensures LedToBy(es + [e], |es| + 1, l) <==> LeadsTo(e, l) || (LedToBy(es, |es|, l) && !e.FncOpen?)
  {
    hide SameFunction, LeadsTo;
    var more, n := es + [e], |es|;
    forall k: nat
      ensures SameFunction(more, k, n + 1) <==> k == n || (SameFunction(es, k, n) && !e.FncOpen?)
      ensures k < n ==> more[k] == es[k]
      ensures SameFunction(es, k, n) ==> k < n
      ensures SameFunction(more, k, n + 1) ==> k <= n
    {
      SameFunctionNext(es, e, k);
      SameFunctionBound(es, k, n);
      SameFunctionBound(more, k, n + 1);
    }
    assert more[n] == e && SameFunction(more, n, n + 1);
    OpensNothing(e, l);
  }

  lemma SameFunctionBound(es: Stream, k: nat, n: nat)
    ensures SameFunction(es, k, n) ==> k < n <= |es|
  {}

  lemma OpensNothing(e: Event, l: Label)
    ensures e.FncOpen? ==> !LeadsTo(e, l)
  {}

  lemma {:induction false} LabelsKnown(es: Stream)
    ensures
      var s := LabelsAfter(LabelState({}, {}), es);
      forall l :: (l in s.defined <==> DefinedBy(es, |es|, l)) && (l in s.reachable <==> LedToBy(es, |es|, l))
    decreases |es|
  {
    if es != [] {
      hide DefinedBy, LedToBy;
      var before, e := es[..|es| - 1], es[|es| - 1];
      LabelsKnown(before);
      assert es == before + [e];
      var s := LabelsAfter(LabelState({}, {}), es);
      forall l
        ensures (l in s.defined <==> DefinedBy(es, |es|, l)) && (l in s.reachable <==> LedToBy(es, |es|, l))
      {
        KnownNext(before, e, l);
      }
    }
  }

  /** What is known before the `n`th callback does not depend on what comes later. */
  lemma KnownBefore(es: Stream, e: Event, n: nat)
    requires n <= |es|
    ensures forall l :: DefinedBy(es + [e], n, l) <==> DefinedBy(es, n, l)
    ensures forall l :: LedToBy(es + [e], n, l) <==> LedToBy(es, n, l)
  {
    var more := es + [e];
    assert forall i :: 0 <= i < |es| ==> more[i] == es[i];
    forall k: nat
      ensures SameFunction(more, k, n) <==> SameFunction(es, k, n)
    {}
    forall l
      ensures DefinedBy(more, n, l) <==> DefinedBy(es, n, l)
      ensures LedToBy(more, n, l) <==> LedToBy(es, n, l)
    {
      if k: nat :| SameFunction(more, k, n) && more[k] == BbOpen(l) {
        assert SameFunction(es, k, n) && es[k] == BbOpen(l);
      }
      if k: nat :| SameFunction(more, k, n) && LeadsTo(more[k], l) {
        assert SameFunction(es, k, n) && LeadsTo(es[k], l);
      }
      if k: nat :| SameFunction(es, k, n) && es[k] == BbOpen(l) {
        assert SameFunction(more, k, n) && more[k] == BbOpen(l);
      }
      if k: nat :| SameFunction(es, k, n) && LeadsTo(es[k], l) {
        assert SameFunction(more, k, n) && LeadsTo(more[k], l);
      }
    }
  }

  lemma FineBefore(es: Stream, e: Event, n: nat)
    requires n < |es|
    ensures FineAt(es + [e], n) <==> FineAt(es, n)
  {
    hide DefinedBy, LedToBy;
    KnownBefore(es, e, n);
    assert (es + [e])[n] == es[n];
  }

  /** The last callback, seen from before it. */
  lemma FineLast(es: Stream, e: Event)
    ensures FineAt(es + [e], |es|) <==>
      match e
      case BbOpen(l) => !DefinedBy(es, |es|, l)
      case FncClose => forall l :: LedToBy(es, |es|, l) ==> DefinedBy(es, |es|, l)
      case _ => true
  {
    hide DefinedBy, LedToBy;
    KnownBefore(es, e, |es|);
    assert (es + [e])[|es|] == e;
  }

  /** Labels are in order if and only if no function defines one twice, and when one is closed it has defined all that
      it leads to. */
  lemma {:induction false} LabelsOkMeans(es: Stream)
    ensures LabelsOk(LabelState({}, {}), es) <==> forall n :: 0 <= n < |es| ==> FineAt(es, n)
    decreases |es|
  {
    if es != [] {
      hide FineAt, DefinedBy, LedToBy;
      var before, e := es[..|es| - 1], es[|es| - 1];
      LabelsOkMeans(before);
      assert es == before + [e];
      forall n | 0 <= n < |before|
        ensures FineAt(es, n) <==> FineAt(before, n)
      {
        FineBefore(before, e, n);
      }
      LabelsKnown(before);
      FineLast(before, e);
      assert LabelsFine(LabelsAfter(LabelState({}, {}), before), e) <==> FineAt(es, |before|);
    }
  }
}
