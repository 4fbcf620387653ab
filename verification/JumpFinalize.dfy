/** The second pass over compiled code: successors skip all jumps. */
module JumpFinalize {
  import opened Collections
  import opened BlockGraph
  import opened JumpThreading
  import L = LoopAnalyser

  /** From address to address by jumps only. */
  ghost predicate Jumps(code: seq<Micro>, codeIndex: map<nat, nat>, c: seq<nat>) {
    && c != [] && (forall k :: 0 <= k < |c| ==> c[k] < |code|)
    && forall k :: 0 < k < |c| ==> JumpsTo(code, codeIndex, c[k - 1], c[k])
  }

  ghost predicate JumpsTo(code: seq<Micro>, codeIndex: map<nat, nat>, a: nat, b: nat) {
    a < |code| && code[a].Jump? && code[a].target in codeIndex && codeIndex[code[a].target] == b
  }

  /** Executing jumps one by one from address `a` ends at `r`, which is none. */
  ghost predicate Resolves(code: seq<Micro>, codeIndex: map<nat, nat>, a: nat, r: nat) {
    r < |code| && !code[r].Jump? && exists c :: Jumps(code, codeIndex, c) && c[0] == a && c[|c| - 1] == r
  }

  lemma {:induction false} JumpsDetermined(code: seq<Micro>, codeIndex: map<nat, nat>, c: seq<nat>, d: seq<nat>, k: nat)
    requires Jumps(code, codeIndex, c) && Jumps(code, codeIndex, d) && c[0] == d[0] && k < |c| && k < |d|
    ensures c[k] == d[k]
    decreases k
  {
    if k > 0 {
      JumpsDetermined(code, codeIndex, c, d, k - 1);
      assert JumpsTo(code, codeIndex, c[k - 1], c[k]) && JumpsTo(code, codeIndex, d[k - 1], d[k]);
    }
  }

  lemma NotLonger(code: seq<Micro>, codeIndex: map<nat, nat>, c: seq<nat>, d: seq<nat>)
    requires Jumps(code, codeIndex, c) && Jumps(code, codeIndex, d) && c[0] == d[0] && !code[c[|c| - 1]].Jump?
    ensures |d| <= |c|
  {
    JumpsDetermined(code, codeIndex, c, d, if |c| < |d| then |c| - 1 else |d| - 1);
    assert |d| > |c| ==> JumpsTo(code, codeIndex, d[|c| - 1], d[|c|]);
  }

  lemma ResolvesDetermined(code: seq<Micro>, codeIndex: map<nat, nat>, a: nat, r: nat, s: nat)
    requires Resolves(code, codeIndex, a, r) && Resolves(code, codeIndex, a, s)
    ensures r == s
  {
    var c :| Jumps(code, codeIndex, c) && c[0] == a && c[|c| - 1] == r;
    var d :| Jumps(code, codeIndex, d) && d[0] == a && d[|d| - 1] == s;
    NotLonger(code, codeIndex, c, d);
    NotLonger(code, codeIndex, d, c);
    JumpsDetermined(code, codeIndex, c, d, |c| - 1);
  }

  // ---------- chains of jumps end ----------

  /** If a block starts with a jump to a block that starts with a jump, the second was completed first:
      it is no loop entry. */
  lemma JumpFalls(cfg: Cfg, entry: nat, marks: set<nat>, order: seq<nat>, code: seq<Micro>, codeIndex: map<nat, nat>,
                  b: nat)
    requires ValidCfg(cfg) && Compiled(cfg, entry, marks, order, code, codeIndex) && b in codeIndex
    ensures codeIndex[b] < |code|
    ensures code[codeIndex[b]].Jump? ==> code[codeIndex[b]].target in codeIndex
    ensures
      code[codeIndex[b]].Jump? ==>
      var t := code[codeIndex[b]].target;
      codeIndex[t] < |code| && (code[codeIndex[t]].Jump? ==> Position(order, t) < Position(order, b))
  {
    hide BlockCode, Placed;
    PlacedStarts(code, cfg, marks + {entry}, b, codeIndex[b]);
    assert Sane(code, codeIndex.Keys, codeIndex[b]);
    if code[codeIndex[b]].Jump? {
      var t := code[codeIndex[b]].target;
      PlacedStarts(code, cfg, marks + {entry}, t, codeIndex[t]);
      if code[codeIndex[t]].Jump? {
        assert IsEdge(BlocksOf(cfg), b, t) && t !in marks;
        BeforeIsLower(order, t, b);
      }
    }
  }

  lemma SaneAt(cfg: Cfg, entry: nat, marks: set<nat>, order: seq<nat>, code: seq<Micro>, codeIndex: map<nat, nat>,
               a: nat)
    requires Compiled(cfg, entry, marks, order, code, codeIndex) && a < |code|
    ensures Sane(code, codeIndex.Keys, a)
  {
  }

  /** What is left of a chain of jumps at address `a`, where block `b` starts if `started`. */
  ghost function Rank(code: seq<Micro>, order: seq<nat>, a: nat, started: bool, b: nat): nat {
    if a >= |code| || !code[a].Jump? then 0
    else if started then Position(order, b) + 1
    else |order| + 2
  }

  /** One jump further. */
  lemma JumpOn(cfg: Cfg, entry: nat, marks: set<nat>, order: seq<nat>, code: seq<Micro>, codeIndex: map<nat, nat>,
               a: nat, started: bool, b: nat, c: seq<nat>)
    requires ValidCfg(cfg) && Compiled(cfg, entry, marks, order, code, codeIndex)
    requires a < |code| && code[a].Jump? && (started ==> b in codeIndex && codeIndex[b] == a)
    requires Jumps(code, codeIndex, c) && c[|c| - 1] == a
    ensures code[a].target in codeIndex && codeIndex[code[a].target] < |code|
    ensures Jumps(code, codeIndex, c + [codeIndex[code[a].target]])
    ensures Rank(code, order, codeIndex[code[a].target], true, code[a].target) < Rank(code, order, a, started, b)
  {
    hide Compiled, ValidCfg;
    SaneAt(cfg, entry, marks, order, code, codeIndex, a);
    var t := code[a].target;
    JumpFalls(cfg, entry, marks, order, code, codeIndex, t);
    if started {
      JumpFalls(cfg, entry, marks, order, code, codeIndex, b);
    }
    var c' := c + [codeIndex[t]];
    forall k | 0 < k < |c'|
      ensures JumpsTo(code, codeIndex, c'[k - 1], c'[k])
    {
      assert k < |c| ==> JumpsTo(code, codeIndex, c[k - 1], c[k]);
    }
  }

  /** The second pass: the code stays, successors are worked out. */
  class Finalizer {
    const code: seq<Micro>
    const codeIndex: map<nat, nat>
    ghost const cfg: Cfg
    ghost const entry: nat
    ghost const marks: set<nat>
    ghost const order: seq<nat>

    ghost predicate Ready() {
      ValidCfg(cfg) && Compiled(cfg, entry, marks, order, code, codeIndex)
    }

    constructor (code: seq<Micro>, codeIndex: map<nat, nat>, ghost cfg: Cfg, ghost entry: nat, ghost marks: set<nat>,
                 ghost order: seq<nat>)
      requires ValidCfg(cfg) && Compiled(cfg, entry, marks, order, code, codeIndex)
      ensures this.code == code && this.codeIndex == codeIndex && Ready()
    {
      this.code, this.codeIndex := code, codeIndex;
      this.cfg, this.entry, this.marks, this.order := cfg, entry, marks, order;
    }

    /** A jump's own successor. */
    method FinalizeJmp(a: nat) returns (next: nat)
      requires Ready() && a < |code|
      ensures Resolves(code, codeIndex, a, next)
    {
      hide Compiled, ValidCfg;
      next := a;
      ghost var c, started, b: nat := [a], false, 0;
      while code[next].Jump?
        invariant next < |code| && Jumps(code, codeIndex, c) && c[0] == a && c[|c| - 1] == next
        invariant started ==> b in codeIndex && codeIndex[b] == next
        decreases Rank(code, order, next, started, b)
      {
        JumpOn(cfg, entry, marks, order, code, codeIndex, next, started, b, c);
        started, b, c := true, code[next].target, c + [codeIndex[code[next].target]];
        next := codeIndex[code[next].target];
      }
    }

    /** The two successors of a condition. */
    method FinalizeCond(a: nat) returns (onTrue: nat, onFalse: nat)
      requires Ready() && a < |code| && code[a].Cond?
      ensures Resolves(code, codeIndex, code[a].onTrue, onTrue) && Resolves(code, codeIndex, code[a].onFalse, onFalse)
    {
      hide Compiled, ValidCfg;
      SaneAt(cfg, entry, marks, order, code, codeIndex, a);
      onTrue := code[a].onTrue;
      if code[onTrue].Jump? {
        onTrue := FinalizeJmp(onTrue);
      } else {
        assert Jumps(code, codeIndex, [onTrue]);
      }
      onFalse := code[a].onFalse;
      if code[onFalse].Jump? {
        onFalse := FinalizeJmp(onFalse);
      } else {
        assert Jumps(code, codeIndex, [onFalse]);
      }
    }

    method Finalize() returns (next: seq<seq<nat>>)
      requires Ready()
      ensures Finalized(code, codeIndex, next)
    {
      hide Compiled, ValidCfg, Resolves;
      next := [];
      for a := 0 to |code|
        invariant |next| == a && forall x :: 0 <= x < a ==> FinalizedAt(code, codeIndex, x, next[x])
      {
        SaneAt(cfg, entry, marks, order, code, codeIndex, a);
        match code[a] {
          case Stop => next := next + [[]];
          case Jump(_) =>
            var n := FinalizeJmp(a);
            next := next + [[n]];
          case Cond(_, _) =>
            var t, f := FinalizeCond(a);
            next := next + [[t, f]];
          case _ =>
            var n := FinalizeJmp(a + 1);
            next := next + [[n]];
        }
      }
    }
  }

  // ---------- runs ----------

  /** Where control can go from `a`, jumps not skipped. */
  function Successors(code: seq<Micro>, a: nat): seq<nat>
    requires a < |code|
  {
    match code[a]
    case Stop => []
    case Jump(_) => [a]
    case Cond(t, f) => [t, f]
    case _ => [a + 1]
  }

  ghost predicate FinalizedAt(code: seq<Micro>, codeIndex: map<nat, nat>, a: nat, next: seq<nat>)
    requires a < |code|
  {
    && |next| == |Successors(code, a)|
    && forall i :: 0 <= i < |next| ==> Resolves(code, codeIndex, Successors(code, a)[i], next[i])
  }

  ghost predicate Finalized(code: seq<Micro>, codeIndex: map<nat, nat>, next: seq<seq<nat>>) {
    |next| == |code| && forall a :: 0 <= a < |code| ==> FinalizedAt(code, codeIndex, a, next[a])
  }

  /** Whether the `i`th condition tested in a run holds. */
  type Choices = nat -> bool

  /** The addresses of instructions other than jumps among the first `n` executed from `a` on, jumps taken one by one,
      when `i` conditions were tested before. */
  function Seen(code: seq<Micro>, codeIndex: map<nat, nat>, choices: Choices, a: nat, i: nat, n: nat): (r: seq<nat>)
    ensures forall k :: 0 <= k < |r| ==> r[k] < |code|
    decreases n
  {
    if n == 0 || a >= |code| then []
    else
      match code[a]
      case Stop => [a]
      case Jump(t) => if t in codeIndex then Seen(code, codeIndex, choices, codeIndex[t], i, n - 1) else []
      case Cond(t, f) => [a] + Seen(code, codeIndex, choices, if choices(i) then t else f, i + 1, n - 1)
      case _ => [a] + Seen(code, codeIndex, choices, a + 1, i, n - 1)
  }

  /** The addresses of the first `n` instructions executed from `r` on, with successors as finalized. */
  ghost function FinalSeen(code: seq<Micro>, codeIndex: map<nat, nat>, next: seq<seq<nat>>, choices: Choices, r: nat,
                           i: nat, n: nat): (seen: seq<nat>)
    requires Finalized(code, codeIndex, next) && r < |code|
    ensures forall k :: 0 <= k < |seen| ==> seen[k] < |code|
    decreases n
  {
    if n == 0 then []
    else
      assert FinalizedAt(code, codeIndex, r, next[r]);
      match code[r]
      case Stop => [r]
      case Cond(_, _) =>
        [r] + FinalSeen(code, codeIndex, next, choices, next[r][if choices(i) then 0 else 1], i + 1, n - 1)
      case _ => [r] + FinalSeen(code, codeIndex, next, choices, next[r][0], i, n - 1)
  }

  /** Executing more only adds to what was executed. */
  lemma {:induction false} SeenMore(code: seq<Micro>, codeIndex: map<nat, nat>, choices: Choices, a: nat, i: nat,
                                    n: nat, m: nat)
    requires n <= m
    ensures Seen(code, codeIndex, choices, a, i, n) <= Seen(code, codeIndex, choices, a, i, m)
    decreases n
  {
    if n > 0 && a < |code| {
      match code[a]
      case Stop =>
      case Jump(t) =>
        if t in codeIndex {
          SeenMore(code, codeIndex, choices, codeIndex[t], i, n - 1, m - 1);
        }
      case Cond(t, f) => SeenMore(code, codeIndex, choices, if choices(i) then t else f, i + 1, n - 1, m - 1);
      case _ => SeenMore(code, codeIndex, choices, a + 1, i, n - 1, m - 1);
    }
  }

  /** Nothing is seen along a chain of jumps. */
  lemma {:induction false} ChainUnseen(code: seq<Micro>, codeIndex: map<nat, nat>, choices: Choices, c: seq<nat>,
                                       i: nat, n: nat)
    requires Jumps(code, codeIndex, c)
    ensures Seen(code, codeIndex, choices, c[0], i, |c| - 1 + n) == Seen(code, codeIndex, choices, c[|c| - 1], i, n)
    decreases |c|
  {
    if |c| > 1 {
      assert JumpsTo(code, codeIndex, c[0], c[1]);
      forall k | 0 < k < |c[1..]|
        ensures JumpsTo(code, codeIndex, c[1..][k - 1], c[1..][k])
      {
        assert JumpsTo(code, codeIndex, c[k], c[k + 1]);
      }
      ChainUnseen(code, codeIndex, choices, c[1..], i, n);
    }
  }

  /** Which successor is taken, and how many conditions were tested then. */
  function Way(code: seq<Micro>, choices: Choices, a: nat, i: nat): (nat, nat)
    requires a < |code|
  {
    if code[a].Cond? then (if choices(i) then 0 else 1, i + 1) else (0, i)
  }

  lemma SeenOn(code: seq<Micro>, codeIndex: map<nat, nat>, choices: Choices, r: nat, i: nat, n: nat)
    requires r < |code| && !code[r].Jump? && !code[r].Stop? && n > 0
    ensures
      var (k, i') := Way(code, choices, r, i);
      && k < |Successors(code, r)|
      && Seen(code, codeIndex, choices, r, i, n) ==
           [r] + Seen(code, codeIndex, choices, Successors(code, r)[k], i', n - 1)
  {}

  lemma FinalSeenOn(code: seq<Micro>, codeIndex: map<nat, nat>, next: seq<seq<nat>>, choices: Choices, r: nat, i: nat,
                    n: nat)
    requires Finalized(code, codeIndex, next) && r < |code| && !code[r].Jump? && !code[r].Stop? && n > 0
    ensures
      var (k, i') := Way(code, choices, r, i);
      && r < |next| && k < |Successors(code, r)| == |next[r]|
      && Resolves(code, codeIndex, Successors(code, r)[k], next[r][k])
      && FinalSeen(code, codeIndex, next, choices, r, i, n) ==
           [r] + FinalSeen(code, codeIndex, next, choices, next[r][k], i', n - 1)
  {
    hide Resolves;
    assert FinalizedAt(code, codeIndex, r, next[r]);
    FinalInCode(code, codeIndex, next, r);
  }

  lemma FinalInCode(code: seq<Micro>, codeIndex: map<nat, nat>, next: seq<seq<nat>>, r: nat)
    requires Finalized(code, codeIndex, next) && r < |code|
    ensures forall k :: 0 <= k < |next[r]| ==> next[r][k] < |code|
  {
    assert FinalizedAt(code, codeIndex, r, next[r]);
  }

  /** Finalized code executes what is executed when jumps are taken one by one: `n` instructions of it are those among
      the first `s`, and are no fewer than those among the first `n`. */
  lemma {:induction false} FinalizedRunsTheSame(code: seq<Micro>, codeIndex: map<nat, nat>, next: seq<seq<nat>>,
                                                choices: Choices, a: nat, r: nat, i: nat, n: nat) returns (s: nat)
    requires Finalized(code, codeIndex, next) && Resolves(code, codeIndex, a, r)
    ensures s >= n && FinalSeen(code, codeIndex, next, choices, r, i, n) == Seen(code, codeIndex, choices, a, i, s)
    ensures Seen(code, codeIndex, choices, a, i, n) <= FinalSeen(code, codeIndex, next, choices, r, i, n)
    decreases n
  {
    hide Finalized, Seen, FinalSeen;
    var c := ChainOf(code, codeIndex, a, r);
    var more := n;
    if n > 0 && !code[r].Stop? {
      FinalSeenOn(code, codeIndex, next, choices, r, i, n);
      var (k, i') := Way(code, choices, r, i);
      var on := FinalizedRunsTheSame(code, codeIndex, next, choices, Successors(code, r)[k], next[r][k], i', n - 1);
      more := on + 1;
      SeenOn(code, codeIndex, choices, r, i, more);
    } else {
      SeenLast(code, codeIndex, next, choices, r, i, n);
    }
    s := |c| - 1 + more;
    ChainUnseen(code, codeIndex, choices, c, i, more);
    SeenMore(code, codeIndex, choices, a, i, n, s);
  }

  lemma ChainOf(code: seq<Micro>, codeIndex: map<nat, nat>, a: nat, r: nat) returns (c: seq<nat>)
    requires Resolves(code, codeIndex, a, r)
    ensures r < |code| && !code[r].Jump? && Jumps(code, codeIndex, c) && c[0] == a && c[|c| - 1] == r
  {
    c :| Jumps(code, codeIndex, c) && c[0] == a && c[|c| - 1] == r;
  }

  lemma SeenLast(code: seq<Micro>, codeIndex: map<nat, nat>, next: seq<seq<nat>>, choices: Choices, r: nat, i: nat,
                 n: nat)
    requires Finalized(code, codeIndex, next) && r < |code| && (n == 0 || code[r].Stop?)
    ensures FinalSeen(code, codeIndex, next, choices, r, i, n) == Seen(code, codeIndex, choices, r, i, n)
  {}

  // ---------- runs of blocks ----------

  /** What is done: a fixed point is looked for at an abstraction, conditions are tested, control is given away. */
  datatype Act = Join | Do(action: Action) | Test | End

  function Dos(ops: seq<Action>): (r: seq<Act>)
    ensures |r| == |ops| && forall k :: 0 <= k < |ops| ==> r[k] == Do(ops[k])
  {
    seq(|ops|, k requires 0 <= k < |ops| => Do(ops[k]))
  }

  /** What the first `n` blocks do that are run from block `b` on, when `i` conditions were tested before: instructions
      in order, and of a branch what belongs to the outcome of its condition, and then the block that this leads to. */
  function BlocksRun(cfg: Cfg, marked: set<nat>, choices: Choices, b: nat, i: nat, n: nat): seq<Act>
    requires ValidCfg(cfg) && b < |cfg|
    decreases n
  {
    if n == 0 then []
    else
      var block := cfg[b];
      var start := (if b in marked then [Join] else []) + Dos(Ops(block, |block| - 1));
      match block[|block| - 1]
      case Leave(ops) => start + Dos(ops) + [End]
      case Goto(t) => LeadsInside(cfg, b); start + BlocksRun(cfg, marked, choices, t, i, n - 1)
      case Branch(load, killTrue, killFalse, onTrue, onFalse) =>
        LeadsInside(cfg, b);
        start + Dos(load) + [Test] +
        if choices(i) then Dos(killTrue) + BlocksRun(cfg, marked, choices, onTrue, i + 1, n - 1)
        else Dos(killFalse) + BlocksRun(cfg, marked, choices, onFalse, i + 1, n - 1)
      case Straight(_) => []
  }

  lemma LeadsInside(cfg: Cfg, b: nat)
    requires ValidCfg(cfg) && b < |cfg|
    ensures
      match cfg[b][|cfg[b]| - 1]
      case Goto(t) => t < |cfg|
      case Branch(_, _, _, t, f) => t < |cfg| && f < |cfg|
      case _ => true
  {
    var targets := BlocksOf(cfg)[b];
    assert TargetsWithin(targets, |cfg|) && targets == Targets(cfg[b]);
    assert |targets| == 2 ==> targets[0] < |cfg| && targets[1] < |cfg|;
    assert |targets| == 1 ==> targets[0] < |cfg|;
  }

  function Acts(code: seq<Micro>, seen: seq<nat>): seq<Act>
    requires forall k :: 0 <= k < |seen| ==> seen[k] < |code|
  {
    if seen == [] then []
    else
      (match code[seen[0]]
       case Abstraction => [Join]
       case Plain(action) => [Do(action)]
       case Stop => [End]
       case Jump(_) => []
       case Cond(_, _) => [Test]) + Acts(code, seen[1..])
  }

  lemma {:induction false} ActsPrefix(code: seq<Micro>, few: seq<nat>, many: seq<nat>)
    requires few <= many && forall k :: 0 <= k < |many| ==> many[k] < |code|
    ensures forall k :: 0 <= k < |few| ==> few[k] < |code|
    ensures Acts(code, few) <= Acts(code, many)
    decreases |few|
  {
    if few != [] {
      ActsPrefix(code, few[1..], many[1..]);
    }
  }

  /** What is done by the first `n` instructions executed from address `a` on. */
  function Done(code: seq<Micro>, codeIndex: map<nat, nat>, choices: Choices, a: nat, i: nat, n: nat): seq<Act> {
    Acts(code, Seen(code, codeIndex, choices, a, i, n))
  }

  lemma DoneMore(code: seq<Micro>, codeIndex: map<nat, nat>, choices: Choices, a: nat, i: nat, n: nat, m: nat)
    requires n <= m
    ensures Done(code, codeIndex, choices, a, i, n) <= Done(code, codeIndex, choices, a, i, m)
  {
    SeenMore(code, codeIndex, choices, a, i, n, m);
    ActsPrefix(code, Seen(code, codeIndex, choices, a, i, n), Seen(code, codeIndex, choices, a, i, m));
  }

  /** One instruction. */
  lemma DoneOne(code: seq<Micro>, codeIndex: map<nat, nat>, choices: Choices, a: nat, i: nat, n: nat)
    requires a < |code| && n > 0
    ensures
      Done(code, codeIndex, choices, a, i, n) ==
      match code[a]
      case Abstraction => [Join] + Done(code, codeIndex, choices, a + 1, i, n - 1)
      case Plain(action) => [Do(action)] + Done(code, codeIndex, choices, a + 1, i, n - 1)
      case Stop => [End]
      case Jump(t) => if t in codeIndex then Done(code, codeIndex, choices, codeIndex[t], i, n - 1) else []
      case Cond(t, f) => [Test] + Done(code, codeIndex, choices, if choices(i) then t else f, i + 1, n - 1)
  {
    match code[a]
    case Stop => ActsCons(code, a, []);
    case Jump(_) =>
    case Cond(t, f) => ActsCons(code, a, Seen(code, codeIndex, choices, if choices(i) then t else f, i + 1, n - 1));
    case _ => ActsCons(code, a, Seen(code, codeIndex, choices, a + 1, i, n - 1));
  }

  lemma ActsCons(code: seq<Micro>, a: nat, rest: seq<nat>)
    requires a < |code| && forall k :: 0 <= k < |rest| ==> rest[k] < |code|
    ensures Acts(code, [a] + rest) == Acts(code, [a]) + Acts(code, rest)
  {
    assert ([a] + rest)[1..] == rest && [a][1..] == [];
  }

  /** A part of the code. */
  ghost predicate Holds(code: seq<Micro>, at: nat, piece: seq<Micro>) {
    at + |piece| <= |code| && code[at..at + |piece|] == piece
  }

  /** A stretch of instructions that go on to the next. */
  lemma {:induction false} PlainsDone(code: seq<Micro>, codeIndex: map<nat, nat>, choices: Choices, ops: seq<Action>,
                                      a: nat, i: nat, n: nat)
    requires Holds(code, a, Plains(ops))
    ensures Done(code, codeIndex, choices, a, i, |ops| + n) ==
            Dos(ops) + Done(code, codeIndex, choices, a + |ops|, i, n)
    decreases |ops|
  {
    hide Done, Holds;
    if ops != [] {
      PlainsSplit(code, ops, a);
      PlainsDone(code, codeIndex, choices, ops[1..], a + 1, i, n);
      DoneOne(code, codeIndex, choices, a, i, |ops| + n);
    } else {
      assert Dos(ops) == [];
    }
  }

  lemma PlainsSplit(code: seq<Micro>, ops: seq<Action>, a: nat)
    requires Holds(code, a, Plains(ops)) && ops != []
    ensures a < |code| && code[a] == Plain(ops[0]) && Dos(ops) == [Do(ops[0])] + Dos(ops[1..])
    ensures Holds(code, a + 1, Plains(ops[1..]))
  {
    var piece := code[a..a + |ops|];
    assert code[a] == piece[0];
    assert code[a + 1..a + 1 + |ops[1..]|] == piece[1..];
    assert piece[1..] == Plains(ops[1..]);
  }

  /** The code of an outcome of a condition, or of a goto if there is nothing to kill. */
  lemma OutcomeDone(code: seq<Micro>, codeIndex: map<nat, nat>, choices: Choices, ops: seq<Action>, t: nat, a: nat,
                    i: nat, n: nat)
    requires Holds(code, a, Plains(ops) + [Jump(t)]) && t in codeIndex
    ensures Done(code, codeIndex, choices, a, i, |ops| + 1 + n) ==
            Dos(ops) + Done(code, codeIndex, choices, codeIndex[t], i, n)
  {
    hide Done, Holds;
    HoldsParts(code, a, Plains(ops), [Jump(t)]);
    HoldsOne(code, a + |ops|, Jump(t));
    PlainsDone(code, codeIndex, choices, ops, a, i, 1 + n);
    DoneOne(code, codeIndex, choices, a + |ops|, i, 1 + n);
  }

  lemma HoldsParts(code: seq<Micro>, at: nat, x: seq<Micro>, y: seq<Micro>)
    requires Holds(code, at, x + y)
    ensures Holds(code, at, x) && Holds(code, at + |x|, y)
  {
    var piece := code[at..at + |x + y|];
    assert code[at..at + |x|] == piece[..|x|];
    assert code[at + |x|..at + |x| + |y|] == piece[|x|..];
  }

  lemma HoldsOne(code: seq<Micro>, at: nat, x: Micro)
    requires Holds(code, at, [x])
    ensures at < |code| && code[at] == x
  {
    assert code[at] == code[at..at + 1][0];
  }

  lemma BranchParts(code: seq<Micro>, at: nat, load: seq<Action>, kt: seq<Action>, kf: seq<Action>, t: nat, f: nat)
    requires Holds(code, at, InsnCode(Branch(load, kt, kf, t, f), at))
    ensures
      var test := at + |load|;
      var onTrue := test + 1;
      var onFalse := onTrue + |kt| + 1;
      && Holds(code, at, Plains(load)) && test < |code| && code[test] == Cond(onTrue, onFalse)
      && Holds(code, onTrue, Plains(kt) + [Jump(t)]) && Holds(code, onFalse, Plains(kf) + [Jump(f)])
  {
    hide Holds, InsnCode, Plains;
    var cond := [Cond(at + |load| + 1, at + |load| + 1 + |kt| + 1)];
    var first, second := Plains(kt) + [Jump(t)], Plains(kf) + [Jump(f)];
    BranchCode(at, load, kt, kf, t, f);
    HoldsParts(code, at, Plains(load), cond + (first + second));
    HoldsParts(code, at + |load|, cond, first + second);
    HoldsOne(code, at + |load|, cond[0]);
    HoldsParts(code, at + |load| + 1, first, second);
  }

  lemma BranchCode(at: nat, load: seq<Action>, kt: seq<Action>, kf: seq<Action>, t: nat, f: nat)
    ensures
      var cond := [Cond(at + |load| + 1, at + |load| + 1 + |kt| + 1)];
      var first, second := Plains(kt) + [Jump(t)], Plains(kf) + [Jump(f)];
      && InsnCode(Branch(load, kt, kf, t, f), at) == Plains(load) + (cond + (first + second))
      && |Plains(load)| == |load| && |Plains(kt)| == |kt|
  {
    hide Plains;
  }

  /** What a block's code consists of. */
  lemma BlockParts(cfg: Cfg, marked: set<nat>, code: seq<Micro>, b: nat, at: nat)
    requires b < |cfg| && ValidBlock(cfg[b]) && Placed(code, cfg, marked, b, at)
    ensures
      var head, ops := Head(b in marked), Ops(cfg[b], |cfg[b]| - 1);
      var last := at + |head| + |ops|;
      && Holds(code, at, head) && Holds(code, at + |head|, Plains(ops))
      && Holds(code, last, InsnCode(cfg[b][|cfg[b]| - 1], last))
  {
    hide Holds, BlockCode, InsnCode, Plains, Ops, Head;
    var block, head := cfg[b], Head(b in marked);
    var ops := Plains(Ops(block, |block| - 1));
    var last := InsnCode(block[|block| - 1], at + |head| + |ops|);
    BlockCodeIs(block, b in marked, at);
    PlacedHolds(cfg, marked, code, b, at);
    HoldsParts(code, at, head, ops + last);
    HoldsParts(code, at + |head|, ops, last);
  }

  lemma PlacedHolds(cfg: Cfg, marked: set<nat>, code: seq<Micro>, b: nat, at: nat)
    requires b < |cfg| && Placed(code, cfg, marked, b, at)
    ensures Holds(code, at, BlockCode(cfg[b], b in marked, at))
  {
    hide BlockCode;
  }

  lemma BlockCodeIs(block: seq<Insn>, withAbstraction: bool, at: nat)
    requires ValidBlock(block)
    ensures
      var head, ops := Head(withAbstraction), Plains(Ops(block, |block| - 1));
      && BlockCode(block, withAbstraction, at) ==
           head + (ops + InsnCode(block[|block| - 1], at + |head| + |ops|))
      && |ops| == |Ops(block, |block| - 1)|
  {
    hide InsnCode, Ops, InsnsCode;
    var n, start := |block| - 1, at + |Head(withAbstraction)|;
    StraightCode(block, n, start);
    InsnsCodeLast(block, n, start);
  }

  /** All targets of compiled blocks are compiled, too. */
  ghost predicate Whole(cfg: Cfg, marked: set<nat>, code: seq<Micro>, codeIndex: map<nat, nat>) {
    && (forall b :: b in codeIndex ==> b < |cfg| && Placed(code, cfg, marked, b, codeIndex[b]))
    && forall b, t :: b in codeIndex && t in Targets(cfg[b]) ==> t in codeIndex
  }

  lemma CompiledWhole(cfg: Cfg, entry: nat, marks: set<nat>, order: seq<nat>, code: seq<Micro>,
                      codeIndex: map<nat, nat>)
    requires ValidCfg(cfg) && Compiled(cfg, entry, marks, order, code, codeIndex)
    ensures Whole(cfg, marks + {entry}, code, codeIndex) && entry in codeIndex
  {
    hide Placed;
    forall b, t | b in codeIndex && t in Targets(cfg[b])
      ensures t in codeIndex
    {
      assert IsEdge(BlocksOf(cfg), b, t);
    }
  }

  /** The start of a block: its abstraction, if it has one, and what goes on to the next. */
  lemma StartDone(cfg: Cfg, marked: set<nat>, code: seq<Micro>, codeIndex: map<nat, nat>, choices: Choices, b: nat,
                  i: nat, n: nat) returns (last: nat, s: nat)
    requires ValidCfg(cfg) && Whole(cfg, marked, code, codeIndex) && b in codeIndex
    ensures s >= n && Holds(code, last, InsnCode(cfg[b][|cfg[b]| - 1], last))
    ensures Done(code, codeIndex, choices, codeIndex[b], i, s) ==
      (if b in marked then [Join] else []) + Dos(Ops(cfg[b], |cfg[b]| - 1)) +
      Done(code, codeIndex, choices, last, i, n)
  {
    hide Done, BlockCode, InsnCode, Placed, Targets, Holds, Dos, Plains, Ops;
    var at, head, ops := codeIndex[b], Head(b in marked), Ops(cfg[b], |cfg[b]| - 1);
    BlockParts(cfg, marked, code, b, at);
    last := at + |head| + |ops|;
    PlainsDone(code, codeIndex, choices, ops, at + |head|, i, n);
    s := |head| + |ops| + n;
    if b in marked {
      HoldsOne(code, at, Abstraction);
      DoneOne(code, codeIndex, choices, at, i, s);
    }
  }

  /** The first of the blocks, and what its last instruction leads to. */
  lemma BlocksRunOn(cfg: Cfg, marked: set<nat>, choices: Choices, b: nat, i: nat, n: nat)
    requires ValidCfg(cfg) && b < |cfg| && n > 0
    ensures
      var start := (if b in marked then [Join] else []) + Dos(Ops(cfg[b], |cfg[b]| - 1));
      BlocksRun(cfg, marked, choices, b, i, n) == start + LastRun(cfg, marked, choices, b, i, n)
  {
    hide Dos, Ops;
  }

  function LastRun(cfg: Cfg, marked: set<nat>, choices: Choices, b: nat, i: nat, n: nat): seq<Act>
    requires ValidCfg(cfg) && b < |cfg| && n > 0
  {
    LeadsInside(cfg, b);
    match cfg[b][|cfg[b]| - 1]
    case Leave(ops) => Dos(ops) + [End]
    case Goto(t) => BlocksRun(cfg, marked, choices, t, i, n - 1)
    case Branch(load, kt, kf, t, f) =>
      var to, ks := if choices(i) then t else f, if choices(i) then kt else kf;
      Dos(load) + [Test] + (Dos(ks) + BlocksRun(cfg, marked, choices, to, i + 1, n - 1))
    case Straight(_) => []
  }

  /** Compiled code does what the blocks do: whatever `n` blocks do is what the first `s` instructions do. */
  lemma {:induction false} BlocksDone(cfg: Cfg, marked: set<nat>, code: seq<Micro>, codeIndex: map<nat, nat>,
                                      choices: Choices, b: nat, i: nat, n: nat) returns (s: nat)
    requires ValidCfg(cfg) && Whole(cfg, marked, code, codeIndex) && b in codeIndex
    ensures s >= n
    ensures Done(code, codeIndex, choices, codeIndex[b], i, s) == BlocksRun(cfg, marked, choices, b, i, n)
    decreases n
  {
    hide Done, Whole, Placed, InsnCode, BlocksRun, Dos;
    InCfg(cfg, marked, code, codeIndex, b);
    s := 0;
    if n == 0 {
      NoneDone(cfg, marked, code, codeIndex, choices, codeIndex[b], b, i);
    } else {
      var block := cfg[b];
      BlocksRunOn(cfg, marked, choices, b, i, n);
      match block[|block| - 1] {
        case Leave(ops) =>
          var last;
          last, s := StartDone(cfg, marked, code, codeIndex, choices, b, i, |ops| + n);
          LeaveDone(code, codeIndex, choices, ops, last, i, n);
        case Goto(t) =>
          var on := BlocksDone(cfg, marked, code, codeIndex, choices, t, i, n - 1);
          var last;
          last, s := StartDone(cfg, marked, code, codeIndex, choices, b, i, 1 + on);
          GotoDone(code, codeIndex, choices, t, last, i, on);
        case Branch(load, kt, kf, t, f) =>
          var to, ks := if choices(i) then t else f, if choices(i) then kt else kf;
          var on := BlocksDone(cfg, marked, code, codeIndex, choices, to, i + 1, n - 1);
          var last;
          last, s := StartDone(cfg, marked, code, codeIndex, choices, b, i, |load| + (1 + (|ks| + 1 + on)));
          BranchDone(code, codeIndex, choices, load, kt, kf, t, f, last, i, on);
      }
    }
  }

  lemma NoneDone(cfg: Cfg, marked: set<nat>, code: seq<Micro>, codeIndex: map<nat, nat>, choices: Choices, a: nat,
                 b: nat, i: nat)
    requires ValidCfg(cfg) && b < |cfg|
    ensures Done(code, codeIndex, choices, a, i, 0) == [] == BlocksRun(cfg, marked, choices, b, i, 0)
  {}

  lemma InCfg(cfg: Cfg, marked: set<nat>, code: seq<Micro>, codeIndex: map<nat, nat>, b: nat)
    requires ValidCfg(cfg) && Whole(cfg, marked, code, codeIndex) && b in codeIndex
    ensures b < |cfg| && ValidBlock(cfg[b])
    ensures
      match cfg[b][|cfg[b]| - 1]
      case Goto(t) => t in codeIndex
      case Branch(_, _, _, t, f) => t in codeIndex && f in codeIndex
      case _ => true
  {
    hide Placed;
    var targets := Targets(cfg[b]);
    assert |targets| == 2 ==> targets[0] in codeIndex && targets[1] in codeIndex;
    assert |targets| == 1 ==> targets[0] in codeIndex;
  }

  lemma LeaveDone(code: seq<Micro>, codeIndex: map<nat, nat>, choices: Choices, ops: seq<Action>, at: nat, i: nat,
                  n: nat)
    requires Holds(code, at, InsnCode(Leave(ops), at)) && n > 0
    ensures Done(code, codeIndex, choices, at, i, |ops| + n) == Dos(ops) + [End]
  {
    hide Done, Holds, Dos;
    HoldsParts(code, at, Plains(ops), [Stop]);
    HoldsOne(code, at + |ops|, Stop);
    PlainsDone(code, codeIndex, choices, ops, at, i, n);
    DoneOne(code, codeIndex, choices, at + |ops|, i, n);
  }

  lemma GotoDone(code: seq<Micro>, codeIndex: map<nat, nat>, choices: Choices, t: nat, at: nat, i: nat, n: nat)
    requires Holds(code, at, InsnCode(Goto(t), at)) && t in codeIndex
    ensures Done(code, codeIndex, choices, at, i, 1 + n) == Done(code, codeIndex, choices, codeIndex[t], i, n)
  {
    hide Done;
    HoldsOne(code, at, Jump(t));
    DoneOne(code, codeIndex, choices, at, i, 1 + n);
  }

  lemma BranchDone(code: seq<Micro>, codeIndex: map<nat, nat>, choices: Choices, load: seq<Action>, kt: seq<Action>,
                   kf: seq<Action>, t: nat, f: nat, at: nat, i: nat, n: nat)
    requires Holds(code, at, InsnCode(Branch(load, kt, kf, t, f), at)) && t in codeIndex && f in codeIndex
    ensures
      var to, ks := if choices(i) then t else f, if choices(i) then kt else kf;
      Done(code, codeIndex, choices, at, i, |load| + (1 + (|ks| + 1 + n))) ==
      Dos(load) + [Test] + (Dos(ks) + Done(code, codeIndex, choices, codeIndex[to], i + 1, n))
  {
    hide Done, InsnCode, Holds, Dos, Plains;
    var to, ks := if choices(i) then t else f, if choices(i) then kt else kf;
    BranchParts(code, at, load, kt, kf, t, f);
    var test := at + |load|;
    var a := if choices(i) then test + 1 else test + 1 + |kt| + 1;
    PlainsDone(code, codeIndex, choices, load, at, i, 1 + (|ks| + 1 + n));
    DoneOne(code, codeIndex, choices, test, i, 1 + (|ks| + 1 + n));
    OutcomeDone(code, codeIndex, choices, ks, to, a, i + 1, n);
  }

  /** What a function does in its first `n` blocks. */
  function FunctionRun(cfg: Cfg, entry: nat, marks: set<nat>, prologue: seq<Action>, choices: Choices,
                       n: nat): seq<Act>
    requires ValidCfg(cfg) && entry < |cfg|
  {
    Dos(prologue) + BlocksRun(cfg, marks + {entry}, choices, entry, 0, n)
  }

  /** What the first `n` instructions do that are executed from `r` on, with successors as finalized. */
  ghost function FinalRun(code: seq<Micro>, codeIndex: map<nat, nat>, next: seq<seq<nat>>, choices: Choices, r: nat,
                          n: nat): seq<Act>
    requires Finalized(code, codeIndex, next) && r < |code|
  {
    Acts(code, FinalSeen(code, codeIndex, next, choices, r, 0, n))
  }

  /** The code of a function, and `r`, to which the jumps from its first instruction on lead. */
  ghost predicate FunctionCode(cfg: Cfg, entry: nat, marks: set<nat>, order: seq<nat>, code: seq<Micro>,
                               codeIndex: map<nat, nat>, next: seq<seq<nat>>, prologue: seq<Action>, r: nat) {
    && ValidCfg(cfg) && Compiled(cfg, entry, marks, order, code, codeIndex) && Finalized(code, codeIndex, next)
    && Plains(prologue) + [Jump(entry)] <= code && Resolves(code, codeIndex, 0, r) && entry < |cfg|
  }

  /** Jumps taken one by one, a function does what its blocks do. */
  lemma FunctionDone(cfg: Cfg, entry: nat, marks: set<nat>, order: seq<nat>, code: seq<Micro>,
                     codeIndex: map<nat, nat>, next: seq<seq<nat>>, prologue: seq<Action>, choices: Choices, r: nat,
                     n: nat) returns (s: nat)
    requires FunctionCode(cfg, entry, marks, order, code, codeIndex, next, prologue, r)
    ensures s >= n && Done(code, codeIndex, choices, 0, 0, s) == FunctionRun(cfg, entry, marks, prologue, choices, n)
  {
    hide Compiled, Finalized, Resolves, Whole, BlocksRun, Done, ValidCfg;
    CompiledWhole(cfg, entry, marks, order, code, codeIndex);
    var on := BlocksDone(cfg, marks + {entry}, code, codeIndex, choices, entry, 0, n);
    OutcomeDone(code, codeIndex, choices, prologue, entry, 0, 0, on);
    s := |prologue| + 1 + on;
  }

  /** For any outcomes of conditions, a compiled and finalized function does what its blocks do, in the same order: what
      its first `n` instructions do, the first `m` blocks do. */
  lemma FunctionRunsBlocks(cfg: Cfg, entry: nat, marks: set<nat>, order: seq<nat>, code: seq<Micro>,
                           codeIndex: map<nat, nat>, next: seq<seq<nat>>, prologue: seq<Action>, choices: Choices,
                           r: nat, n: nat) returns (m: nat)
    requires FunctionCode(cfg, entry, marks, order, code, codeIndex, next, prologue, r)
    ensures r < |code|
    ensures FinalRun(code, codeIndex, next, choices, r, n) <= FunctionRun(cfg, entry, marks, prologue, choices, m)
  {
    hide Compiled, Finalized, Jumps, ValidCfg, FunctionRun, Seen, FinalSeen, Acts;
    m := FinalizedRunsTheSame(code, codeIndex, next, choices, 0, r, 0, n);
    var t := FunctionDone(cfg, entry, marks, order, code, codeIndex, next, prologue, choices, r, m);
    DoneMore(code, codeIndex, choices, 0, 0, m, t);
  }

  /** And what its first `n` blocks do, the first `k` instructions do. */
  lemma BlocksRunInFunction(cfg: Cfg, entry: nat, marks: set<nat>, order: seq<nat>, code: seq<Micro>,
                            codeIndex: map<nat, nat>, next: seq<seq<nat>>, prologue: seq<Action>, choices: Choices,
                            r: nat, n: nat) returns (k: nat)
    requires FunctionCode(cfg, entry, marks, order, code, codeIndex, next, prologue, r)
    ensures r < |code|
    ensures FunctionRun(cfg, entry, marks, prologue, choices, n) <= FinalRun(code, codeIndex, next, choices, r, k)
  {
    hide Compiled, Finalized, Jumps, ValidCfg, FunctionRun, Seen, FinalSeen, Acts;
    k := FunctionDone(cfg, entry, marks, order, code, codeIndex, next, prologue, choices, r, n);
    var s := FinalizedRunsTheSame(code, codeIndex, next, choices, 0, r, 0, k);
    ActsPrefix(code, Seen(code, codeIndex, choices, 0, 0, k), FinalSeen(code, codeIndex, next, choices, r, 0, k));
  }

  /** Every cycle of blocks has a loop entry, so it has an instruction that is no jump. */
  lemma EveryCycleMarked(g: Blocks, entry: nat, marks: set<nat>, order: seq<nat>, p: seq<nat>)
    requires L.Analysed(g, entry, marks, order) && IsPath(g, p) && |p| > 1 && p[0] in order && p[|p| - 1] == p[0]
    ensures exists l :: 0 < l < |p| && p[l] in marks
  {
    var cut := L.Into(g, marks);
    forall x: nat, t: nat | x in order && IsEdge(g, x, t)
      ensures (x, t) in cut || Before(order, t, x)
    {
      if t in marks {
        var i :| 0 <= i < |g[x]| && g[x][i] == t;
      }
    }
    CutsAllCycles(g, order, cut, p);
    var l :| 0 < l < |p| && (p[l - 1], p[l]) in cut;
  }
}
