/** Blocks compiled to one code, and the jumps between them resolved. */
module JumpThreading {
  import opened Collections
  import opened BlockGraph
  import L = LoopAnalyser

  /** What a microinstruction that does not jump does. */
  type Action = nat

  /** Instructions as far as their code jumps: `Straight` becomes microinstructions that go on to the next one (a label
      becomes none), and so do the first ones of `Leave`, after which control is given away; `Branch` loads its operand
      and kills dead variables on each branch. */
  datatype Insn =
    | Straight(ops: seq<Action>)
    | Leave(ops: seq<Action>)
    | Goto(target: nat)
    | Branch(load: seq<Action>, killTrue: seq<Action>, killFalse: seq<Action>, onTrue: nat, onFalse: nat)

  type Cfg = seq<seq<Insn>>

  datatype Micro = Abstraction | Plain(action: Action) | Stop | Jump(target: nat) | Cond(onTrue: nat, onFalse: nat)

  function Targets(block: seq<Insn>): seq<nat> {
    if block == [] then []
    else
      match block[|block| - 1]
      case Goto(t) => [t]
      case Branch(_, _, _, t, u) => [t, u]
      case _ => []
  }

  function BlocksOf(cfg: Cfg): (r: Blocks)
    ensures |r| == |cfg| && forall b :: 0 <= b < |cfg| ==> r[b] == Targets(cfg[b])
  {
    seq(|cfg|, b requires 0 <= b < |cfg| => Targets(cfg[b]))
  }

  /** The last instruction of a block, and no other, leaves it. */
  ghost predicate ValidBlock(block: seq<Insn>) {
    block != [] && forall k :: 0 <= k < |block| ==> (block[k].Straight? <==> k < |block| - 1)
  }

  ghost predicate ValidCfg(cfg: Cfg) {
    Valid(BlocksOf(cfg)) && forall b :: 0 <= b < |cfg| ==> ValidBlock(cfg[b])
  }

  // ---------- what the code of a block is ----------

  function Plains(ops: seq<Action>): (r: seq<Micro>)
    ensures |r| == |ops| && forall k :: 0 <= k < |ops| ==> r[k] == Plain(ops[k])
  {
    seq(|ops|, k requires 0 <= k < |ops| => Plain(ops[k]))
  }

  /** The code of an instruction that starts at address `at`; both outcomes of a condition go to code of its own. */
  function InsnCode(insn: Insn, at: nat): seq<Micro> {
    match insn
    case Straight(ops) => Plains(ops)
    case Leave(ops) => Plains(ops) + [Stop]
    case Goto(t) => [Jump(t)]
    case Branch(load, kt, kf, t, f) =>
      Plains(load) + [Cond(at + |load| + 1, at + |load| + 1 + |kt| + 1)] +
      Plains(kt) + [Jump(t)] + Plains(kf) + [Jump(f)]
  }

  function InsnsCode(block: seq<Insn>, n: nat, at: nat): seq<Micro>
    requires n <= |block|
  {
    if n == 0 then []
    else
      var before := InsnsCode(block, n - 1, at);
      before + InsnCode(block[n - 1], at + |before|)
  }

  function Head(withAbstraction: bool): seq<Micro> {
    if withAbstraction then [Abstraction] else []
  }

  function BlockCode(block: seq<Insn>, withAbstraction: bool, at: nat): seq<Micro> {
    Head(withAbstraction) + InsnsCode(block, |block|, at + |Head(withAbstraction)|)
  }

  // ---------- code that can be resolved ----------

  /** Code at address `a`: jumps go to known blocks, conditions and what goes on to the next stay in the code. */
  ghost predicate Sane(code: seq<Micro>, known: set<nat>, a: nat)
    requires a < |code|
  {
    match code[a]
    case Jump(t) => t in known
    case Cond(t, f) => t < |code| && f < |code|
    case Stop => true
    case _ => a + 1 < |code|
  }

  /** Where a block starts: with abstraction if it is marked, and if with a jump then to one of its targets. */
  ghost predicate Starts(code: seq<Micro>, g: Blocks, marked: set<nat>, b: nat, at: nat) {
    && at < |code| && b < |g|
    && (b in marked ==> code[at] == Abstraction)
    && (code[at].Jump? ==> code[at].target in g[b])
  }

  /** Each piece of a block's code is sane by itself. */
  ghost predicate SanePiece(piece: seq<Micro>, at: nat, known: set<nat>, last: bool) {
    forall k :: 0 <= k < |piece| ==>
      match piece[k]
      case Jump(t) => t in known
      case Cond(t, f) => t < at + |piece| && f < at + |piece|
      case Stop => true
      case _ => last ==> k + 1 < |piece|
  }

  lemma InsnIsSane(insn: Insn, at: nat, known: set<nat>)
    requires forall t :: t in Targets([insn]) ==> t in known
    ensures SanePiece(InsnCode(insn, at), at, known, !insn.Straight?)
    ensures !insn.Straight? ==> InsnCode(insn, at) != []
    ensures InsnCode(insn, at) != [] && InsnCode(insn, at)[0].Jump? ==> InsnCode(insn, at)[0].target in Targets([insn])
    ensures forall k :: 0 <= k < |InsnCode(insn, at)| ==> !InsnCode(insn, at)[k].Abstraction?
  {
  }

  /** What the first `n` instructions of a block do, of which none leaves it. */
  function Ops(block: seq<Insn>, n: nat): seq<Action>
    requires n <= |block| && forall k :: 0 <= k < n ==> block[k].Straight?
  {
    if n == 0 then [] else Ops(block, n - 1) + block[n - 1].ops
  }

  lemma {:induction false} StraightCode(block: seq<Insn>, n: nat, at: nat)
    requires n <= |block| && forall k :: 0 <= k < n ==> block[k].Straight?
    ensures InsnsCode(block, n, at) == Plains(Ops(block, n))
  {
    if n > 0 {
      StraightCode(block, n - 1, at);
    }
  }

  /** Sane code stays so behind microinstructions that go on to the next. */
  lemma JoinSane(front: seq<Micro>, last: seq<Micro>, at: nat, known: set<nat>)
    requires last != [] && SanePiece(last, at + |front|, known, true)
    requires forall k :: 0 <= k < |front| ==> front[k].Abstraction? || front[k].Plain?
    ensures SanePiece(front + last, at, known, true)
    ensures (front + last)[0] == if front == [] then last[0] else front[0]
  {
    var code := front + last;
    forall k | 0 <= k < |code|
      ensures
        match code[k]
        case Jump(t) => t in known
        case Cond(t, f) => t < at + |code| && f < at + |code|
        case Stop => true
        case _ => k + 1 < |code|
    {
      if k < |front| {
        assert code[k] == front[k];
      } else {
        assert code[k] == last[k - |front|];
      }
    }
  }

  lemma InsnsCodeLast(block: seq<Insn>, n: nat, at: nat)
    requires n < |block|
    ensures InsnsCode(block, n + 1, at) ==
            InsnsCode(block, n, at) + InsnCode(block[n], at + |InsnsCode(block, n, at)|)
  {}

  /** The code of a whole block. */
  lemma BlockIsSane(block: seq<Insn>, withAbstraction: bool, at: nat, known: set<nat>)
    requires ValidBlock(block) && forall t :: t in Targets(block) ==> t in known
    ensures
      var code := BlockCode(block, withAbstraction, at);
      && code != [] && SanePiece(code, at, known, true)
      && (withAbstraction ==> code[0] == Abstraction)
      && (code[0].Jump? ==> code[0].target in Targets(block))
  {
    hide InsnCode, SanePiece, InsnsCode;
    var n, start := |block| - 1, at + |Head(withAbstraction)|;
    var before := InsnsCode(block, n, start);
    StraightCode(block, n, start);
    assert Targets([block[n]]) == Targets(block);
    InsnIsSane(block[n], start + |before|, known);
    var front, last := Head(withAbstraction) + before, InsnCode(block[n], start + |before|);
    JoinSane(front, last, at, known);
    InsnsCodeLast(block, n, start);
    assert BlockCode(block, withAbstraction, at) == front + last;
  }

  // ---------- compiling ----------

  ghost predicate AllSane(code: seq<Micro>, known: set<nat>) {
    forall a :: 0 <= a < |code| ==> Sane(code, known, a)
  }

  lemma SaneMore(code: seq<Micro>, known: set<nat>, piece: seq<Micro>, known': set<nat>)
    requires AllSane(code, known) && SanePiece(piece, |code|, known', true) && known <= known'
    ensures AllSane(code + piece, known')
  {
    forall a | 0 <= a < |code + piece|
      ensures Sane(code + piece, known', a)
    {
      if a < |code| {
        assert Sane(code, known, a) && (code + piece)[a] == code[a];
      } else {
        assert (code + piece)[a] == piece[a - |code|];
      }
    }
  }

  /** The code of block `b` is where the index says. */
  ghost predicate Placed(code: seq<Micro>, cfg: Cfg, marked: set<nat>, b: nat, at: nat)
    requires b < |cfg|
  {
    var piece := BlockCode(cfg[b], b in marked, at);
    at + |piece| <= |code| && code[at..at + |piece|] == piece
  }

  lemma PlacedMore(code: seq<Micro>, more: seq<Micro>, cfg: Cfg, marked: set<nat>, b: nat, at: nat)
    requires b < |cfg| && Placed(code, cfg, marked, b, at)
    ensures Placed(code + more, cfg, marked, b, at)
  {
    var n := at + |BlockCode(cfg[b], b in marked, at)|;
    assert (code + more)[at..n] == code[at..n];
  }

  lemma PlacedStarts(code: seq<Micro>, cfg: Cfg, marked: set<nat>, b: nat, at: nat)
    requires b < |cfg| && ValidBlock(cfg[b]) && Placed(code, cfg, marked, b, at)
    ensures Starts(code, BlocksOf(cfg), marked, b, at)
  {
    var piece := BlockCode(cfg[b], b in marked, at);
    BlockIsSane(cfg[b], b in marked, at, set t | t in Targets(cfg[b]));
    assert code[at] == code[at..at + |piece|][0] == piece[0];
  }

  /** Blocks compiled so far, and those in the queue. */
  ghost predicate Emitting(cfg: Cfg, entry: nat, marked: set<nat>, order: seq<nat>, code: seq<Micro>,
                           codeIndex: map<nat, nat>, queue: seq<nat>)
  {
    && (forall b :: b in codeIndex || b in queue ==> b in order && b < |cfg|)
    && (forall b :: b in codeIndex ==> Placed(code, cfg, marked, b, codeIndex[b]))
    && (forall b, t :: b in codeIndex && t in Targets(cfg[b]) ==> t in codeIndex || t in queue)
    && (entry in codeIndex || entry in queue)
    && AllSane(code, Known(codeIndex, queue))
  }

  ghost function Known(codeIndex: map<nat, nat>, queue: seq<nat>): set<nat> {
    codeIndex.Keys + set b | b in queue
  }

  /** One block more. */
  lemma EmitBlock(cfg: Cfg, entry: nat, marked: set<nat>, order: seq<nat>, code: seq<Micro>, codeIndex: map<nat, nat>,
                  queue: seq<nat>)
    requires ValidCfg(cfg) && Emitting(cfg, entry, marked, order, code, codeIndex, queue) && queue != []
    requires queue[0] !in codeIndex &&
      (forall x: nat, t: nat :: x in order && IsEdge(BlocksOf(cfg), x, t) ==> t in order)
    ensures
      var b := queue[0];
      b < |cfg| &&
        Emitting(cfg, entry, marked, order, code + BlockCode(cfg[b], b in marked, |code|), codeIndex[b := |code|],
        queue[1..] + Targets(cfg[b]))
  {
    hide InsnCode, InsnsCode, BlockCode, Sane, SanePiece, Targets;
    var b := queue[0];
    assert b in queue && b < |cfg|;
    var piece, index, rest :=
      BlockCode(cfg[b], b in marked, |code|), codeIndex[b := |code|], queue[1..] + Targets(cfg[b]);
    assert forall x :: x in queue ==> x == b || x in queue[1..];
    forall t | t in Targets(cfg[b])
      ensures t in order && t < |cfg|
    {
      assert IsEdge(BlocksOf(cfg), b, t);
    }
    forall x | x in index || x in rest
      ensures x in order && x < |cfg|
    {
      assert x in codeIndex || x in queue || x in Targets(cfg[b]);
    }
    forall x | x in index
      ensures Placed(code + piece, cfg, marked, x, index[x])
    {
      if x == b {
        assert (code + piece)[|code|..|code| + |piece|] == piece;
      } else {
        PlacedMore(code, piece, cfg, marked, x, index[x]);
      }
    }
    forall x, t | x in index && t in Targets(cfg[x])
      ensures t in index || t in rest
    {
      if x != b {
        assert t in codeIndex || t in queue;
      }
    }
    BlockIsSane(cfg[b], b in marked, |code|, Known(index, rest));
    SaneMore(code, Known(codeIndex, queue), piece, Known(index, rest));
  }

  lemma DropBlock(cfg: Cfg, entry: nat, marked: set<nat>, order: seq<nat>, code: seq<Micro>, codeIndex: map<nat, nat>,
                  queue: seq<nat>)
    requires Emitting(cfg, entry, marked, order, code, codeIndex, queue) && queue != [] && queue[0] in codeIndex
    ensures Emitting(cfg, entry, marked, order, code, codeIndex, queue[1..])
  {
    hide AllSane, Placed, Targets, Known;
    QueueSplit(queue);
    KnownStays(codeIndex, queue);
  }

  lemma QueueSplit(queue: seq<nat>)
    requires queue != []
    ensures forall x :: x in queue <==> x == queue[0] || x in queue[1..]
  {}

  lemma KnownStays(codeIndex: map<nat, nat>, queue: seq<nat>)
    requires queue != [] && queue[0] in codeIndex
    ensures Known(codeIndex, queue) == Known(codeIndex, queue[1..])
  {
    QueueSplit(queue);
  }

  /** Everything the entry reaches is compiled, once, and nothing else; the code is sane. */
  ghost predicate Compiled(cfg: Cfg, entry: nat, marks: set<nat>, order: seq<nat>, code: seq<Micro>,
                           codeIndex: map<nat, nat>)
  {
    && L.Analysed(BlocksOf(cfg), entry, marks, order)
    && (forall b :: b in codeIndex <==> b in order)
    && (forall b :: b in codeIndex ==> b < |cfg| && Placed(code, cfg, marks + {entry}, b, codeIndex[b]))
    && AllSane(code, codeIndex.Keys)
  }

  lemma {:induction false} AllEmitted(cfg: Cfg, marks: set<nat>, entry: nat, order: seq<nat>, code: seq<Micro>,
                                      codeIndex: map<nat, nat>)
    requires ValidCfg(cfg) && L.Analysed(BlocksOf(cfg), entry, marks, order)
    requires Emitting(cfg, entry, marks + {entry}, order, code, codeIndex, [])
    requires L.ReachedFrom(BlocksOf(cfg), entry, order)
    ensures Compiled(cfg, entry, marks, order, code, codeIndex)
  {
    var g := BlocksOf(cfg);
    forall b | b in order
      ensures b in codeIndex
    {
      var p :| Connects(g, p, entry, b);
      PathCompiled(cfg, codeIndex, p, |p| - 1);
    }
    assert Known(codeIndex, []) == codeIndex.Keys;
  }

  lemma {:induction false} PathCompiled(cfg: Cfg, codeIndex: map<nat, nat>, p: seq<nat>, k: nat)
    requires IsPath(BlocksOf(cfg), p) && p[0] in codeIndex && k < |p|
    requires forall b :: b in codeIndex ==> b < |cfg|
    requires forall b, t :: b in codeIndex && t in Targets(cfg[b]) ==> t in codeIndex
    ensures p[k] in codeIndex
    decreases k
  {
    if k > 0 {
      PathCompiled(cfg, codeIndex, p, k - 1);
      assert IsEdge(BlocksOf(cfg), p[k - 1], p[k]);
    }
  }

  lemma CondCode(code: seq<Micro>, load: seq<Action>, kt: seq<Action>, kf: seq<Action>, t: nat, f: nat,
                 back: seq<Micro>)
    requires back == Plains(kt) + [Jump(t)] + Plains(kf) + [Jump(f)]
    ensures
      var test := Cond(|code| + |load| + 1, |code| + |load| + 1 + |kt| + 1);
      code + Plains(load) + [test] + back == code + InsnCode(Branch(load, kt, kf, t, f), |code|)
  {}

  class Compiler {
    var code: seq<Micro>
    var codeIndex: map<nat, nat>

    constructor ()
      ensures code == [] && codeIndex == map[]
    {
      code, codeIndex := [], map[];
    }

    method AppendPlain(ops: seq<Action>)
      modifies this`code
      ensures code == old(code) + Plains(ops)
    {
      for i := 0 to |ops|
        invariant code == old(code) + Plains(ops[..i])
      {
        code := code + [Plain(ops[i])];
        assert Plains(ops[..i + 1]) == Plains(ops[..i]) + [Plain(ops[i])];
      }
      assert ops[..|ops|] == ops;
    }

    /** A condition: its place is kept free until the code of both branches is there. */
    method CompileCond(load: seq<Action>, killTrue: seq<Action>, killFalse: seq<Action>, onTrue: nat, onFalse: nat)
      modifies this`code
      ensures code == old(code) + InsnCode(Branch(load, killTrue, killFalse, onTrue, onFalse), |old(code)|)
    {
      hide Plains;
      AppendPlain(load);
      var sentinel := |code|;
      ghost var front := code;
      code := code + [Stop];
      var first := |code|;
      AppendPlain(killTrue);
      code := code + [Jump(onTrue)];
      var second := |code|;
      AppendPlain(killFalse);
      code := code + [Jump(onFalse)];
      ghost var back := Plains(killTrue) + [Jump(onTrue)] + Plains(killFalse) + [Jump(onFalse)];
      assert code == front + [Stop] + back;
      code := code[sentinel := Cond(first, second)];
      assert code == front + [Cond(first, second)] + back;
      CondCode(old(code), load, killTrue, killFalse, onTrue, onFalse, back);
    }

    method CompileInstruction(insn: Insn)
      modifies this`code
      ensures code == old(code) + InsnCode(insn, |old(code)|)
    {
      match insn {
        case Straight(ops) => AppendPlain(ops);
        case Leave(ops) =>
          AppendPlain(ops);
          code := code + [Stop];
        case Goto(t) => code := code + [Jump(t)];
        case Branch(load, kt, kf, t, f) => CompileCond(load, kt, kf, t, f);
      }
    }

    method CompileBlock(block: seq<Insn>, withAbstraction: bool)
      modifies this`code
      ensures code == old(code) + BlockCode(block, withAbstraction, |old(code)|)
    {
      if withAbstraction {
        code := code + [Abstraction];
      }
      assert code == old(code) + Head(withAbstraction);
      CompileInsns(block);
      Regroup(old(code), Head(withAbstraction), InsnsCode(block, |block|, |old(code)| + |Head(withAbstraction)|));
    }

    method CompileInsns(block: seq<Insn>)
      modifies this`code
      ensures code == old(code) + InsnsCode(block, |block|, |old(code)|)
    {
      hide InsnCode;
      ghost var start := |code|;
      assert code == old(code) + InsnsCode(block, 0, start);
      for i := 0 to |block|
        invariant code == old(code) + InsnsCode(block, i, start)
      {
        CompileInstruction(block[i]);
        Regroup(old(code), InsnsCode(block, i, start), InsnCode(block[i], start + |InsnsCode(block, i, start)|));
      }
    }

    method CompileFunction(cfg: Cfg, entry: nat, prologue: seq<Action>) returns (marks: set<nat>, ghost order: seq<nat>)
      requires ValidCfg(cfg) && entry < |cfg| && code == [] && codeIndex == map[]
      modifies this
      ensures Compiled(cfg, entry, marks, order, code, codeIndex)
      ensures Plains(prologue) + [Jump(entry)] <= code
    {
      hide Emitting;
      AppendPlain(prologue);
      code := code + [Jump(entry)];
      var loops := new L.LoopAnalyser();
      loops.Init(BlocksOf(cfg), entry);
      marks, order := loops.entryPoints, loops.order;
      var queue, first := [entry], true;
      StartEmitting(cfg, entry, marks + {entry}, order, code, prologue);
      while queue != []
        invariant Emitting(cfg, entry, marks + {entry}, order, code, codeIndex, queue)
        invariant Plains(prologue) + [Jump(entry)] <= code
        invariant first <==> codeIndex == map[]
        invariant first ==> queue == [entry]
        invariant !first ==> entry in codeIndex
        decreases L.Remaining(BlocksOf(cfg), codeIndex.Keys), |queue|
      {
        var block := queue[0];
        if block in codeIndex {
          DropBlock(cfg, entry, marks + {entry}, order, code, codeIndex, queue);
          queue := queue[1..];
          continue;
        }
        EmitBlock(cfg, entry, marks + {entry}, order, code, codeIndex, queue);
        assert block in L.Remaining(BlocksOf(cfg), codeIndex.Keys);
        queue := queue[1..];
        var blockHead := |code|;
        CompileBlock(cfg[block], first || block in marks);
        codeIndex := codeIndex[block := blockHead];
        queue := queue + Targets(cfg[block]);
        first := false;
      }
      AllEmitted(cfg, marks, entry, order, code, codeIndex);
    }
  }

  lemma StartEmitting(cfg: Cfg, entry: nat, marked: set<nat>, order: seq<nat>, code: seq<Micro>,
                      prologue: seq<Action>)
    requires code == Plains(prologue) + [Jump(entry)] && entry < |cfg| && entry in order
    ensures Emitting(cfg, entry, marked, order, code, map[], [entry])
  {
  }
}
