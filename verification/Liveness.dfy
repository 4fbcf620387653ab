/** Control-flow graphs, what an instruction reads and overwrites, and the sets of variables live at each point. */
module Liveness {
  import opened Collections

  type Uid = nat

  /** `DerefArray` carries the operand that is the index; `Item` and `Offset` select a part of a composite. */
  datatype Accessor = Deref | DerefArray(index: Operand) | Item | Offset | Ref

  /** Constants and global variables have no uid that counts here. */
  datatype Operand = Other(accessors: seq<Accessor>) | Local(uid: Uid, accessors: seq<Accessor>)

  datatype Code = Call | BuiltInCall | Unop | Binop | Clobber | Ret | Cond | Switch | Jmp | Nop | Abort | Label

  datatype Insn = Insn(code: Code, operands: seq<Operand>)

  datatype Block = Block(insns: seq<Insn>, targets: seq<nat>)

  type Cfg = seq<Block>

  /** Which variable a dereferenced pointer stands for, where that is known. */
  type Aliases = map<Uid, Uid>

  /** An instruction list is not empty, branches stay in the graph, and operands are there where the code says so. */
  ghost predicate ValidCfg(cfg: Cfg) {
    forall b :: 0 <= b < |cfg| ==>
      && cfg[b].insns != []
      && InRange(cfg[b].targets, |cfg|)
      && ValidInsns(cfg[b].insns)
  }

  ghost predicate InRange(targets: seq<nat>, n: nat) {
    forall i :: 0 <= i < |targets| ==> targets[i] < n
  }

  ghost predicate ValidInsns(insns: seq<Insn>) {
    forall k :: 0 <= k < |insns| ==> ValidInsn(insns[k])
  }

  predicate ValidInsn(insn: Insn) {
    insn.code in {Call, Unop, Binop, Clobber, Ret, Cond, Switch} ==> insn.operands != []
  }

  // ---------- reads and overwrites, in the order they are seen ----------

  datatype Event = Use(v: Uid) | Def(v: Uid)

  /** A variable read or overwritten; overwriting a part of a composite is neither. */
  function VarEvents(v: Uid, dst: bool, fieldOfComp: bool): seq<Event> {
    if dst then if fieldOfComp then [] else [Def(v)] else [Use(v)]
  }

  function HasDeref(accessors: seq<Accessor>): bool {
    exists a :: a in accessors && (a.Deref? || a.DerefArray?)
  }

  function HasField(accessors: seq<Accessor>): bool {
    exists a :: a in accessors && (a.Item? || a.Offset?)
  }

  function IndexEvents(accessors: seq<Accessor>, aliases: Aliases): seq<Event>
    decreases accessors, 0
  {
    if accessors == [] then []
    else
      IndexEvents(accessors[..|accessors| - 1], aliases) + AccessorEvents(accessors[|accessors| - 1], aliases)
  }

  function AccessorEvents(a: Accessor, aliases: Aliases): seq<Event>
    decreases a, 2
  {
    if a.DerefArray? then OperandEvents(a.index, aliases, false) else []
  }

  /** The variable of an operand, then the alias of what it dereferences. */
  function BaseEvents(op: Operand, aliases: Aliases, dst: bool): seq<Event> {
    if op.Other? then []
    else
      VarEvents(op.uid, dst && !HasDeref(op.accessors), HasField(op.accessors)) +
      if HasDeref(op.accessors) && !HasField(op.accessors) && op.uid in aliases
        then VarEvents(aliases[op.uid], dst, false)
      else []
  }

  /** What an operand reads and overwrites: its indices come first. */
  function OperandEvents(op: Operand, aliases: Aliases, dst: bool): seq<Event>
    decreases op, 1
  {
    IndexEvents(op.accessors, aliases) + BaseEvents(op, aliases, dst)
  }

  /** The operands from the last to the first; only the first may be overwritten. */
  function OperandsEvents(ops: seq<Operand>, aliases: Aliases, n: nat): seq<Event>
    requires n <= |ops|
    decreases |ops| - n
  {
    if n == |ops| then [] else OperandsEvents(ops, aliases, n + 1) + OperandEvents(ops[n], aliases, n == 0)
  }

  function InsnEvents(insn: Insn, aliases: Aliases): seq<Event>
    requires ValidInsn(insn)
  {
    match insn.code
    case Call => OperandsEvents(insn.operands, aliases, 0)
    case Unop => OperandsEvents(insn.operands, aliases, 0)
    case Binop => OperandsEvents(insn.operands, aliases, 0)
    case Clobber => OperandEvents(insn.operands[0], aliases, true)
    case Ret => OperandEvents(insn.operands[0], aliases, false)
    case Cond => OperandEvents(insn.operands[0], aliases, false)
    case Switch => OperandEvents(insn.operands[0], aliases, false)
    case _ => []
  }

  // ---------- summaries ----------

  /** Some use of `v` has no overwrite of `v` before it. */
  ghost predicate ReadFirst(es: seq<Event>, v: Uid) {
    exists i :: 0 <= i < |es| && es[i] == Use(v) && Def(v) !in es[..i]
  }

  /** The variables read before they are overwritten. */
  function Gen(es: seq<Event>): set<Uid>
    decreases |es|
  {
    if es == [] then {} else
      var last := es[|es| - 1];
      var before := es[..|es| - 1];
      Gen(before) + if last.Use? && last.v !in Kill(before) then {last.v} else {}
  }

  /** The variables overwritten. */
  function Kill(es: seq<Event>): (r: set<Uid>)
    ensures forall v :: v in r <==> Def(v) in es
  {
    set e | e in es && e.Def? :: e.v
  }

  lemma {:induction false} GenReadFirst(es: seq<Event>, v: Uid)
    ensures v in Gen(es) <==> ReadFirst(es, v)
    decreases |es|
  {
    if es != [] {
      var before, n := es[..|es| - 1], |es| - 1;
      GenReadFirst(before, v);
      if ReadFirst(before, v) {
        var i :| 0 <= i < |before| && before[i] == Use(v) && Def(v) !in before[..i];
        assert es[i] == Use(v) && es[..i] == before[..i];
      }
      if ReadFirst(es, v) {
        var i :| 0 <= i < |es| && es[i] == Use(v) && Def(v) !in es[..i];
        if i < n {
          assert before[i] == Use(v) && before[..i] == es[..i];
        }
      }
      if es[n] == Use(v) && v !in Kill(before) {
        assert es[n] == Use(v) && Def(v) !in es[..n];
      }
    }
  }

  /** One after the other: what the second reads first counts unless the first overwrites it. */
  lemma {:induction false} GenAppend(es: seq<Event>, fs: seq<Event>)
    ensures Gen(es + fs) == Gen(es) + (Gen(fs) - Kill(es))
    ensures Kill(es + fs) == Kill(es) + Kill(fs)
    decreases |fs|
  {
    if fs == [] {
      assert es + fs == es;
    } else {
      var before := fs[..|fs| - 1];
      GenAppend(es, before);
      assert (es + fs)[..|es + fs| - 1] == es + before;
    }
  }

  // ---------- what matters of a function: a script of events for each block ----------

  type Script = seq<seq<Event>>

  /** A block as its events, instruction by instruction, and what must stay alive if control leaves the function. */
  datatype Body = Body(script: Script, targets: seq<nat>, exit: set<Uid>)

  type Flow = seq<Body>

  function ScriptOf(insns: seq<Insn>, aliases: Aliases): (r: Script)
    requires ValidInsns(insns)
    ensures |r| == |insns| && forall k :: 0 <= k < |insns| ==> r[k] == InsnEvents(insns[k], aliases)
  {
    seq(|insns|, k requires 0 <= k < |insns| => InsnEvents(insns[k], aliases))
  }

  function BodyOf(block: Block, aliases: Aliases): Body
    requires ValidInsns(block.insns)
  {
    Body(ScriptOf(block.insns, aliases), block.targets, if block.targets == [] then aliases.Values else {})
  }

  function FlowOf(cfg: Cfg, aliases: Aliases): (r: Flow)
    requires ValidCfg(cfg)
    ensures ValidFlow(r) && |r| == |cfg| && forall b :: 0 <= b < |cfg| ==> r[b] == BodyOf(cfg[b], aliases)
  {
    seq(|cfg|, b requires 0 <= b < |cfg| => BodyOf(cfg[b], aliases))
  }

  ghost predicate ValidFlow(flow: Flow) {
    forall b :: 0 <= b < |flow| ==> flow[b].script != [] && InRange(flow[b].targets, |flow|)
  }

  /** The events of the first `n` instructions. */
  function HeadEvents(script: Script, n: nat): seq<Event>
    requires n <= |script|
  {
    if n == 0 then [] else HeadEvents(script, n - 1) + script[n - 1]
  }

  /** The events of the instructions from the `k`th on. */
  function TailEvents(script: Script, k: nat): seq<Event>
    requires k <= |script|
    decreases |script| - k
  {
    if k == |script| then [] else script[k] + TailEvents(script, k + 1)
  }

  lemma {:induction false} HeadAndTail(script: Script, k: nat)
    requires k <= |script|
    ensures HeadEvents(script, k) + TailEvents(script, k) == HeadEvents(script, |script|)
    decreases |script| - k
  {
    if k < |script| {
      HeadAndTail(script, k + 1);
      Regroup(HeadEvents(script, k), script[k], TailEvents(script, k + 1));
    }
  }

  lemma HeadIsTail(script: Script)
    ensures HeadEvents(script, |script|) == TailEvents(script, 0)
  {
    HeadAndTail(script, 0);
    assert [] + TailEvents(script, 0) == TailEvents(script, 0);
  }

  /** What a block needs by itself. */
  function LocalGen(body: Body): set<Uid> {
    var es := HeadEvents(body.script, |body.script|);
    Gen(es) + (body.exit - Kill(es))
  }

  function LocalKill(body: Body): set<Uid> {
    Kill(HeadEvents(body.script, |body.script|))
  }

  // ---------- liveness by paths ----------

  /** Along the blocks of `path`, and no block before the last overwriting it, `v` gets to a block that needs it. */
  ghost predicate NeededAlong(flow: Flow, b: nat, path: seq<nat>, v: Uid)
    requires ValidFlow(flow) && b < |flow|
    decreases |path|
  {
    if path == [] then v in LocalGen(flow[b])
    else v !in LocalKill(flow[b]) && path[0] in flow[b].targets && NeededAlong(flow, path[0], path[1..], v)
  }

  ghost predicate LiveAtStart(flow: Flow, b: nat, v: Uid)
    requires ValidFlow(flow) && b < |flow|
  {
    exists path :: NeededAlong(flow, b, path, v)
  }

  lemma LiveThroughBlock(flow: Flow, b: nat, t: nat, v: Uid)
    requires ValidFlow(flow) && b < |flow| && t in flow[b].targets && LiveAtStart(flow, t, v)
    requires v !in LocalKill(flow[b])
    ensures LiveAtStart(flow, b, v)
  {
    var path :| NeededAlong(flow, t, path, v);
    assert ([t] + path)[1..] == path;
    assert NeededAlong(flow, b, [t] + path, v);
  }

  // ---------- solutions ----------

  type Solution = seq<set<Uid>>

  /** The union of what the targets need. */
  function OutOf(gen: Solution, targets: seq<nat>): set<Uid>
    requires InRange(targets, |gen|)
  {
    set t, v | t in targets && v in gen[t] :: v
  }

  /** Each block needs what it needs by itself and what its targets need and it does not overwrite. */
  ghost predicate Solves(flow: Flow, gen: Solution)
    requires ValidFlow(flow)
  {
    |gen| == |flow| && forall b :: 0 <= b < |flow| ==> SolvesAt(flow, gen, b)
  }

  ghost predicate SolvesAt(flow: Flow, gen: Solution, b: nat)
    requires ValidFlow(flow) && |gen| == |flow| && b < |flow|
  {
    gen[b] == LocalGen(flow[b]) + (OutOf(gen, flow[b].targets) - LocalKill(flow[b]))
  }

  /** The least solution: exactly what some path needs. */
  ghost predicate Exact(flow: Flow, gen: Solution)
    requires ValidFlow(flow)
  {
    |gen| == |flow| && forall b, v :: 0 <= b < |flow| ==> (v in gen[b] <==> LiveAtStart(flow, b, v))
  }

  /** Whatever is closed under what the blocks need has all that some path needs. */
  lemma {:induction false} ClosedHasPath(flow: Flow, gen: Solution, b: nat, path: seq<nat>, v: Uid)
    requires ValidFlow(flow) && b < |flow| && |gen| == |flow| && NeededAlong(flow, b, path, v)
    requires forall c :: 0 <= c < |flow| ==>
      gen[c] >= LocalGen(flow[c]) + (OutOf(gen, flow[c].targets) - LocalKill(flow[c]))
    ensures v in gen[b]
    decreases |path|
  {
    if path != [] {
      ClosedHasPath(flow, gen, path[0], path[1..], v);
      assert v in OutOf(gen, flow[b].targets);
    }
  }
}
