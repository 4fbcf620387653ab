/** The variable killer: a backward liveness fixed point, then the points after which variables may be killed. */
module VarKiller {
  import opened Collections
  import opened Liveness

  /** What is read first and what is overwritten in the instructions seen so far. */
  class BlockData {
    var gen: set<Uid>
    var kill: set<Uid>

    constructor ()
      ensures gen == {} && kill == {}
    {
      gen, kill := {}, {};
    }

    ghost predicate Summarizes(es: seq<Event>)
      reads this
    {
      gen == Gen(es) && kill == Kill(es)
    }

    /** One variable; `isLocal` is false for a global one. */
    method ScanVar(v: Uid, dst: bool, fieldOfComp: bool, ghost es: seq<Event>)
      requires Summarizes(es)
      modifies this
      ensures Summarizes(es + VarEvents(v, dst, fieldOfComp))
    {
      ExtendByVar(es, v, dst, fieldOfComp);
      if dst && fieldOfComp {
        return;
      }
      if v in kill {
        return;
      }
      if dst {
        kill := kill + {v};
        return;
      }
      gen := gen + {v};
    }

    /** The variable that a dereferenced pointer stands for. */
    method ScanTarget(origin: Uid, aliases: Aliases, dst: bool, ghost es: seq<Event>)
      requires Summarizes(es)
      modifies this
      ensures Summarizes(es + if origin in aliases then VarEvents(aliases[origin], dst, false) else [])
    {
      if origin !in aliases {
        assert es + [] == es;
        return;
      }
      ScanVar(aliases[origin], dst, false, es);
    }

    method ScanOperand(op: Operand, aliases: Aliases, upDst: bool, ghost es: seq<Event>)
      requires Summarizes(es)
      modifies this
      ensures Summarizes(es + OperandEvents(op, aliases, upDst))
      decreases op, 1
    {
      var fieldOfComp, dst, deref := ScanAccessors(op, aliases, upDst, es);
      ghost var es1 := es + IndexEvents(op.accessors, aliases);
      Regroup(es, IndexEvents(op.accessors, aliases), BaseEvents(op, aliases, upDst));
      if op.Other? {
        assert es1 + [] == es1;
        return;
      }
      ScanVar(op.uid, dst, fieldOfComp, es1);
      ghost var vs := VarEvents(op.uid, dst, fieldOfComp);
      if !deref || fieldOfComp || op.uid !in aliases {
        assert vs + [] == vs;
      } else {
        Regroup(es1, vs, VarEvents(aliases[op.uid], upDst, false));
      }
      if !deref {
        return;
      }
      if !fieldOfComp {
        ScanTarget(op.uid, aliases, upDst, es1 + vs);
        assert op.uid !in aliases ==> es1 + vs + [] == es1 + vs;
      }
    }

    /** The loop over the accessor chain, with its recursion into array indices. */
    method ScanAccessors(op: Operand, aliases: Aliases, upDst: bool, ghost es: seq<Event>)
      returns (fieldOfComp: bool, dst: bool, deref: bool)
      requires Summarizes(es)
      modifies this
      ensures Summarizes(es + IndexEvents(op.accessors, aliases))
      ensures fieldOfComp == HasField(op.accessors) && deref == HasDeref(op.accessors)
      ensures dst == (upDst && !deref)
      decreases op, 0
    {
      fieldOfComp, dst, deref := false, upDst, false;
      var acs := op.accessors;
      assert es + [] == es;
      for i := 0 to |acs|
        invariant Summarizes(es + IndexEvents(acs[..i], aliases))
        invariant fieldOfComp == HasField(acs[..i]) && deref == HasDeref(acs[..i])
        invariant dst == (upDst && !deref)
      {
        ghost var es1 := es + IndexEvents(acs[..i], aliases);
        NextAccessor(acs, aliases, i, es);
        assert !acs[i].DerefArray? ==> es1 + [] == es1;
        match acs[i] {
          case DerefArray(index) =>
            assert acs[i] in op.accessors;
            ScanOperand(index, aliases, false, es1);
            dst, deref := false, true;
          case Deref =>
            dst, deref := false, true;
          case Item =>
            fieldOfComp := true;
          case Offset =>
            fieldOfComp := true;
          case Ref =>
        }
      }
      assert acs[..|acs|] == acs;
    }

    /** The operands from the last to the first. */
    method ScanOperands(ops: seq<Operand>, aliases: Aliases, ghost es: seq<Event>)
      requires Summarizes(es)
      modifies this
      ensures Summarizes(es + OperandsEvents(ops, aliases, 0))
    {
      hide Gen, Kill, OperandEvents;
      var i := |ops|;
      assert es + [] == es;
      while 0 < i
        invariant 0 <= i <= |ops| && Summarizes(es + OperandsEvents(ops, aliases, i))
      {
        i := i - 1;
        ScanOperand(ops[i], aliases, i == 0, es + OperandsEvents(ops, aliases, i + 1));
        Regroup(es, OperandsEvents(ops, aliases, i + 1), OperandEvents(ops[i], aliases, i == 0));
      }
    }

    method ScanInsn(insn: Insn, aliases: Aliases, ghost es: seq<Event>)
      requires Summarizes(es) && ValidInsn(insn)
      modifies this
      ensures Summarizes(es + InsnEvents(insn, aliases))
    {
      hide Gen, Kill, OperandEvents, OperandsEvents;
      var ops := insn.operands;
      match insn.code {
        case Call | Unop | Binop =>
          ScanOperands(ops, aliases, es);
        case Clobber | Ret | Cond | Switch =>
          ScanOperand(ops[0], aliases, insn.code == Clobber, es);
        case BuiltInCall | Jmp | Nop | Abort | Label =>
          assert es + [] == es;
      }
    }
  }

  lemma ExtendByVar(es: seq<Event>, v: Uid, dst: bool, fieldOfComp: bool)
    ensures Gen(es + VarEvents(v, dst, fieldOfComp)) == Gen(es) + if dst || v in Kill(es) then {} else {v}
    ensures Kill(es + VarEvents(v, dst, fieldOfComp)) == Kill(es) + if dst && !fieldOfComp then {v} else {}
  {
    if dst && fieldOfComp {
      assert es + [] == es;
    } else {
      var e := if dst then Def(v) else Use(v);
      assert VarEvents(v, dst, fieldOfComp) == [e];
      var fs := es + [e];
      assert fs[..|fs| - 1] == es && fs[|fs| - 1] == e;
    }
  }

  lemma NextAccessor(acs: seq<Accessor>, aliases: Aliases, i: nat, es: seq<Event>)
    requires i < |acs|
    ensures HasField(acs[..i + 1]) == (HasField(acs[..i]) || acs[i].Item? || acs[i].Offset?)
    ensures HasDeref(acs[..i + 1]) == (HasDeref(acs[..i]) || acs[i].Deref? || acs[i].DerefArray?)
    ensures es + IndexEvents(acs[..i + 1], aliases) ==
            es + IndexEvents(acs[..i], aliases) + AccessorEvents(acs[i], aliases)
  {
    var next := acs[..i + 1];
    assert next[..i] == acs[..i] && next == acs[..i] + [acs[i]];
    Regroup(es, IndexEvents(acs[..i], aliases), AccessorEvents(acs[i], aliases));
  }

  // ---------- the fixed point ----------

  /** Blocks outside `todo` have all that their targets need; nothing is there that no path needs. */
  ghost predicate Working(flow: Flow, gen: Solution, kill: seq<set<Uid>>, todo: set<nat>)
    requires ValidFlow(flow)
  {
    && |gen| == |kill| == |flow|
    && (forall b :: b in todo ==> b < |flow|)
    && (forall b :: 0 <= b < |flow| ==> kill[b] == LocalKill(flow[b]) && LocalGen(flow[b]) <= gen[b])
    && (forall b, v :: 0 <= b < |flow| && v in gen[b] ==> LiveAtStart(flow, b, v))
    && (forall b :: 0 <= b < |flow| && b !in todo ==> Satisfied(flow, gen, kill, b))
  }

  ghost predicate Satisfied(flow: Flow, gen: Solution, kill: seq<set<Uid>>, b: nat)
    requires ValidFlow(flow) && |gen| == |kill| == |flow| && b < |flow|
  {
    OutOf(gen, flow[b].targets) - kill[b] <= gen[b]
  }

  /** Only the set of `b` grew, by `extra`. */
  ghost predicate Raised(before: Solution, after: Solution, b: nat, extra: set<Uid>) {
    && |after| == |before| && b < |before|
    && after[b] == before[b] + extra
    && forall c :: 0 <= c < |before| && c != b ==> after[c] == before[c]
  }

  lemma RaisedMore(first: Solution, second: Solution, third: Solution, b: nat, some: set<Uid>, more: set<Uid>,
                   all: set<Uid>)
    requires Raised(first, second, b, some) && Raised(second, third, b, more)
    requires forall v :: v in all <==> v in some || v in more || (v in first[b] && v in all)
    ensures Raised(first, third, b, all)
  {
  }

  lemma OutOfMore(gen: Solution, targets: seq<nat>, i: nat)
    requires i < |targets| && InRange(targets, |gen|)
    ensures OutOf(gen, targets[..i + 1]) == OutOf(gen, targets[..i]) + gen[targets[i]]
  {
    assert targets[..i + 1] == targets[..i] + [targets[i]];
  }

  /** The first blocks are summarized, each by itself. */
  ghost predicate Scanned(flow: Flow, gen: Solution, kill: seq<set<Uid>>) {
    && |gen| == |kill| <= |flow|
    && forall b :: 0 <= b < |gen| ==> gen[b] == LocalGen(flow[b]) && kill[b] == LocalKill(flow[b])
  }

  lemma ScannedMore(flow: Flow, gen: Solution, kill: seq<set<Uid>>, g: set<Uid>, k: set<Uid>)
    requires Scanned(flow, gen, kill) && |gen| < |flow| && g == LocalGen(flow[|gen|]) && k == LocalKill(flow[|gen|])
    ensures Scanned(flow, gen + [g], kill + [k])
  {
  }

  lemma StartWorking(flow: Flow, gen: Solution, kill: seq<set<Uid>>, todo: set<nat>)
    requires ValidFlow(flow) && Scanned(flow, gen, kill) && |gen| == |flow|
    requires forall b :: b in todo <==> 0 <= b < |flow|
    ensures Working(flow, gen, kill, todo)
  {
    forall b, v | 0 <= b < |flow| && v in gen[b]
      ensures LiveAtStart(flow, b, v)
    {
      assert NeededAlong(flow, b, [], v);
    }
  }

  /** Block `b` brought up to date, and its predecessors scheduled if that changed it. */
  lemma UpdateKeepsWorking(flow: Flow, gen: Solution, next: Solution, kill: seq<set<Uid>>, todo: set<nat>, b: nat,
                           inbound: set<nat>)
    requires ValidFlow(flow) && Working(flow, gen, kill, todo) && b in todo
    requires Raised(gen, next, b, OutOf(gen, flow[b].targets) - kill[b])
    requires forall p :: p in inbound <==> 0 <= p < |flow| && b in flow[p].targets
    ensures Working(flow, next, kill, todo - {b} + if next[b] == gen[b] then {} else inbound)
  {
    var todo' := todo - {b} + if next[b] == gen[b] then {} else inbound;
    forall c, v | 0 <= c < |flow| && v in next[c]
      ensures LiveAtStart(flow, c, v)
    {
      UpdateIsLive(flow, gen, next, kill, todo, b, c, v);
    }
    forall c | 0 <= c < |flow| && c !in todo'
      ensures Satisfied(flow, next, kill, c)
    {
      UpdateSatisfies(flow, gen, next, kill, b, c);
    }
  }

  lemma UpdateIsLive(flow: Flow, gen: Solution, next: Solution, kill: seq<set<Uid>>, todo: set<nat>, b: nat, c: nat,
                     v: Uid)
    requires ValidFlow(flow) && Working(flow, gen, kill, todo) && b < |flow| && c < |flow|
    requires Raised(gen, next, b, OutOf(gen, flow[b].targets) - kill[b]) && v in next[c]
    ensures LiveAtStart(flow, c, v)
  {
    if v !in gen[c] {
      var t :| t in flow[b].targets && v in gen[t];
      LiveThroughBlock(flow, b, t, v);
    }
  }

  lemma UpdateSatisfies(flow: Flow, gen: Solution, next: Solution, kill: seq<set<Uid>>, b: nat, c: nat)
    requires ValidFlow(flow) && |gen| == |kill| == |flow| && b < |flow| && c < |flow|
    requires Raised(gen, next, b, OutOf(gen, flow[b].targets) - kill[b])
    requires c == b || Satisfied(flow, gen, kill, c)
    requires next[b] == gen[b] || b !in flow[c].targets
    ensures Satisfied(flow, next, kill, c)
  {
    forall v | v in OutOf(next, flow[c].targets) && v !in kill[c]
      ensures v in next[c]
    {
      var t :| t in flow[c].targets && v in next[t];
      assert next[t] == gen[t];
      assert v in OutOf(gen, flow[c].targets);
    }
  }

  lemma WorkedOut(flow: Flow, gen: Solution, kill: seq<set<Uid>>)
    requires ValidFlow(flow) && Working(flow, gen, kill, {})
    ensures Exact(flow, gen) && Solves(flow, gen)
  {
    forall b | 0 <= b < |flow|
      ensures gen[b] >= LocalGen(flow[b]) + (OutOf(gen, flow[b].targets) - LocalKill(flow[b]))
    {
      assert Satisfied(flow, gen, kill, b);
    }
    forall b, v | 0 <= b < |flow| && LiveAtStart(flow, b, v)
      ensures v in gen[b]
    {
      var path :| NeededAlong(flow, b, path, v);
      ClosedHasPath(flow, gen, b, path, v);
    }
    forall b, v | 0 <= b < |flow| && v in gen[b]
      ensures v in LocalGen(flow[b]) + (OutOf(gen, flow[b].targets) - LocalKill(flow[b]))
    {
      var path :| NeededAlong(flow, b, path, v);
      if path != [] {
        assert NeededAlong(flow, path[0], path[1..], v);
        assert LiveAtStart(flow, path[0], v);
      }
    }
    forall b | 0 <= b < |flow|
      ensures SolvesAt(flow, gen, b)
    {
    }
  }

  /** What is still missing from a solution, of all that some block needs by itself. */
  ghost function Missing(flow: Flow, gen: Solution): set<(nat, Uid)>
    requires |gen| == |flow|
  {
    set b: nat, c: nat, v: Uid | b < |flow| && c < |flow| && v in LocalGen(flow[c]) && v !in gen[b] :: (b, v)
  }

  lemma UpdateFills(flow: Flow, gen: Solution, next: Solution, kill: seq<set<Uid>>, todo: set<nat>, b: nat)
    requires ValidFlow(flow) && Working(flow, gen, kill, todo) && b in todo
    requires Raised(gen, next, b, OutOf(gen, flow[b].targets) - kill[b])
    ensures if next[b] == gen[b] then next == gen else Missing(flow, next) < Missing(flow, gen)
  {
    if next[b] != gen[b] {
      var v :| v in next[b] && v !in gen[b];
      var t :| t in flow[b].targets && v in gen[t];
      assert LiveAtStart(flow, t, v);
      var path :| NeededAlong(flow, t, path, v);
      var c := NeededSomewhere(flow, t, path, v);
      assert (b, v) in Missing(flow, gen) && (b, v) !in Missing(flow, next);
    }
  }

  lemma {:induction false} NeededSomewhere(flow: Flow, b: nat, path: seq<nat>, v: Uid) returns (c: nat)
    requires ValidFlow(flow) && b < |flow| && NeededAlong(flow, b, path, v)
    ensures c < |flow| && v in LocalGen(flow[c])
    decreases |path|
  {
    c := b;
    if path != [] {
      c := NeededSomewhere(flow, path[0], path[1..], v);
    }
  }

  /** The blocks that branch to `b`. */
  function Inbound(cfg: Cfg, b: nat): set<nat> {
    set p | 0 <= p < |cfg| && b in cfg[p].targets
  }

  class VarKiller {
    const cfg: Cfg
    const aliases: Aliases
    var gen: Solution
    var kill: seq<set<Uid>>
    var todo: set<nat>

    constructor (cfg: Cfg, aliases: Aliases)
      ensures this.cfg == cfg && this.aliases == aliases && gen == [] && kill == [] && todo == {}
    {
      this.cfg, this.aliases := cfg, aliases;
      gen, kill, todo := [], [], {};
    }

    method PresetLive(bData: BlockData, b: nat)
      requires b < |cfg|
      modifies bData
      ensures bData.kill == old(bData.kill)
      ensures bData.gen == old(bData.gen) + if cfg[b].targets == [] then aliases.Values - bData.kill else {}
    {
      if cfg[b].targets != [] {
        return;
      }
      var rest := aliases.Values;
      while rest != {}
        invariant rest <= aliases.Values && bData.kill == old(bData.kill)
        invariant bData.gen == old(bData.gen) + (aliases.Values - rest - bData.kill)
      {
        var v :| v in rest;
        if v !in bData.kill {
          bData.gen := bData.gen + {v};
        }
        rest := rest - {v};
      }
    }

    /** Summarizes every block by itself. */
    method ScanBlocks()
      requires ValidCfg(cfg) && gen == [] && kill == [] && todo == {}
      modifies this
      ensures Working(FlowOf(cfg, aliases), gen, kill, todo)
    {
      hide Working, LocalGen, LocalKill;
      ghost var flow := FlowOf(cfg, aliases);
      for b := 0 to |cfg|
        invariant Scanned(flow, gen, kill) && |gen| == b
        invariant forall c :: c in todo <==> 0 <= c < b
      {
        var g, k := ScanBlock(b);
        ScannedMore(flow, gen, kill, g, k);
        gen, kill, todo := gen + [g], kill + [k], todo + {b};
      }
      StartWorking(flow, gen, kill, todo);
    }

    method ScanBlock(b: nat) returns (g: set<Uid>, k: set<Uid>)
      requires ValidCfg(cfg) && b < |cfg|
      ensures g == LocalGen(FlowOf(cfg, aliases)[b]) && k == LocalKill(FlowOf(cfg, aliases)[b])
    {
      var bData := new BlockData();
      var insns := cfg[b].insns;
      ghost var script := ScriptOf(insns, aliases);
      for i := 0 to |insns|
        invariant bData.Summarizes(HeadEvents(script, i))
      {
        bData.ScanInsn(insns[i], aliases, HeadEvents(script, i));
      }
      PresetLive(bData, b);
      g, k := bData.gen, bData.kill;
    }

    /** Adds what `src` needs to what block `b` needs, unless the block overwrites it. */
    method UpdateFromTarget(b: nat, src: nat) returns (anyChange: bool)
      requires |gen| == |kill| == |cfg| && b < |cfg| && src < |cfg|
      modifies this`gen
      ensures Raised(old(gen), gen, b, old(gen[src]) - kill[b])
      ensures anyChange == (gen[b] != old(gen[b]))
    {
      anyChange := false;
      var rest := gen[src];
      while rest != {}
        invariant rest <= old(gen[src])
        invariant Raised(old(gen), gen, b, old(gen[src]) - rest - kill[b])
        invariant anyChange == (gen[b] != old(gen[b]))
      {
        var uid :| uid in rest;
        rest := rest - {uid};
        if uid in kill[b] {
          continue;
        }
        if uid !in gen[b] {
          gen := gen[b := gen[b] + {uid}];
          anyChange := true;
        }
      }
    }

    method UpdateBlock(b: nat)
      requires ValidCfg(cfg) && |gen| == |kill| == |cfg| && b < |cfg|
      modifies this`gen, this`todo
      ensures Raised(old(gen), gen, b, OutOf(old(gen), cfg[b].targets) - kill[b])
      ensures todo == old(todo) + if gen[b] == old(gen[b]) then {} else Inbound(cfg, b)
    {
      var anyChange := false;
      var targets := cfg[b].targets;
      for i := 0 to |targets|
        invariant todo == old(todo)
        invariant InRange(targets, |cfg|)
        invariant Raised(old(gen), gen, b, OutOf(old(gen), targets[..i]) - kill[b])
        invariant anyChange == (gen[b] != old(gen[b]))
      {
        ghost var before := gen;
        var change := UpdateFromTarget(b, targets[i]);
        OutOfMore(old(gen), targets, i);
        RaisedMore(old(gen), before, gen, b, OutOf(old(gen), targets[..i]) - kill[b], before[targets[i]] - kill[b],
          OutOf(old(gen), targets[..i + 1]) - kill[b]);
        anyChange := anyChange || change;
      }
      assert targets[..|targets|] == targets;
      if !anyChange {
        return;
      }
      todo := todo + Inbound(cfg, b);
    }

    /** Brings one scheduled block up to date. */
    method ProcessBlock(b: nat)
      requires ValidCfg(cfg) && Working(FlowOf(cfg, aliases), gen, kill, todo) && b in todo
      modifies this`gen, this`todo
      ensures Working(FlowOf(cfg, aliases), gen, kill, todo)
      ensures |gen| == |cfg| == |old(gen)|
      ensures (gen == old(gen) && todo == old(todo) - {b}) ||
        Missing(FlowOf(cfg, aliases), gen) < Missing(FlowOf(cfg, aliases), old(gen))
    {
      ghost var flow, before, had := FlowOf(cfg, aliases), gen, todo;
      todo := todo - {b};
      UpdateBlock(b);
      UpdateKeepsWorking(flow, before, gen, kill, had, b, Inbound(cfg, b));
      UpdateFills(flow, before, gen, kill, had, b);
    }

    method ComputeFixPoint()
      requires ValidCfg(cfg) && Working(FlowOf(cfg, aliases), gen, kill, todo)
      modifies this`gen, this`todo
      ensures todo == {} && Exact(FlowOf(cfg, aliases), gen) && Solves(FlowOf(cfg, aliases), gen)
    {
      assert |gen| == |cfg|;
      hide Working, Missing, Exact, Solves;
      while todo != {}
        invariant |gen| == |cfg| && Working(FlowOf(cfg, aliases), gen, kill, todo)
        decreases Missing(FlowOf(cfg, aliases), gen), todo
      {
        var b :| b in todo;
        ProcessBlock(b);
      }
      WorkedOut(FlowOf(cfg, aliases), gen, kill);
    }
  }
}
