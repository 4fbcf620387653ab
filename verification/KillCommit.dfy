/** Planting the kills: after which instruction, and on which branch, each variable is killed. */
module KillCommit {
  import opened Liveness
  import opened VarKiller
  import Collections

  // ---------- what should be killed where ----------

  function Mentions(es: seq<Event>): set<Uid> {
    set e | e in es :: e.v
  }

  /** What is live where control leaves a block, for its targets together. */
  function OutLive(body: Body, gen: Solution): set<Uid>
    requires InRange(body.targets, |gen|)
  {
    OutOf(gen, body.targets) + body.exit
  }

  /** What is live before the `k`th instruction when `out` is live at the end of the block. */
  function LiveFrom(script: Script, out: set<Uid>, k: nat): set<Uid>
    requires k <= |script|
  {
    var es := TailEvents(script, k);
    Gen(es) + (out - Kill(es))
  }

  /** An instruction kills what it touches and nothing needs after it. */
  function InsnKills(script: Script, out: set<Uid>, k: nat): set<Uid>
    requires k < |script|
  {
    Mentions(script[k]) - LiveFrom(script, out, k + 1)
  }

  ghost predicate BelowSome(v: Uid, vs: set<Uid>) {
    exists w :: w in vs && v < w
  }

  /** A branch kills what some other target needs and its own does not, of what the block touches (`touched`);
      and of the rest, what has a greater variable among those needed or touched. */
  ghost predicate EdgeKills(out: set<Uid>, needed: set<Uid>, touched: set<Uid>, v: Uid) {
    v in out && v !in needed && (v in touched || BelowSome(v, needed + touched))
  }

  /** All that a block plants. */
  datatype Kills = Kills(varsToKill: seq<set<Uid>>, killPerTarget: seq<set<Uid>>)

  ghost predicate BlockKills(body: Body, gen: Solution, kills: Kills)
    requires InRange(body.targets, |gen|)
  {
    var out := OutLive(body, gen);
    var touched := Mentions(TailEvents(body.script, 0));
    && |kills.varsToKill| == |body.script| && |kills.killPerTarget| == |body.targets|
    && (forall k :: 0 <= k < |body.script| ==> kills.varsToKill[k] == InsnKills(body.script, out, k))
    && (forall i, v :: 0 <= i < |body.targets| ==>
          (v in kills.killPerTarget[i] <==> |body.targets| > 1 && EdgeKills(out, gen[body.targets[i]], touched, v)))
  }

  lemma {:induction false} MentionsIsGenOrKill(es: seq<Event>)
    ensures Gen(es) + Kill(es) == Mentions(es)
    decreases |es|
  {
    if es != [] {
      var before := es[..|es| - 1];
      MentionsIsGenOrKill(before);
      var last := es[|es| - 1];
      assert es == before + [last];
      assert Mentions(es) == Mentions(before) + {last.v};
      assert Kill(es) == Kill(before) + if last.Def? then {last.v} else {};
    }
  }

  lemma LiveStep(script: Script, out: set<Uid>, k: nat)
    requires k < |script|
    ensures LiveFrom(script, out, k) == Gen(script[k]) + (LiveFrom(script, out, k + 1) - Kill(script[k]))
  {
    GenAppend(script[k], TailEvents(script, k + 1));
  }

  lemma MentionsStep(script: Script, k: nat)
    requires k < |script|
    ensures Mentions(TailEvents(script, k)) == Mentions(script[k]) + Mentions(TailEvents(script, k + 1))
  {
  }

  /** What nothing touches stays as live as it is at the end. */
  lemma UntouchedLive(script: Script, out: set<Uid>, k: nat, v: Uid)
    requires k <= |script| && v !in Mentions(TailEvents(script, k))
    ensures v in LiveFrom(script, out, k) <==> v in out
  {
    MentionsIsGenOrKill(TailEvents(script, k));
  }

  // ---------- planting ----------

  /** The instructions from the `k`th on are done. */
  ghost predicate Done(body: Body, gen: Solution, k: nat, live: set<Uid>, perTarget: seq<set<Uid>>, kills: Kills)
    requires k <= |body.script| && InRange(body.targets, |gen|)
  {
    var out := OutLive(body, gen);
    var touched := Mentions(TailEvents(body.script, k));
    && |kills.varsToKill| == |body.script| && |kills.killPerTarget| == |perTarget| == |body.targets|
    && live == LiveFrom(body.script, out, k)
    && (forall j :: k <= j < |body.script| ==> kills.varsToKill[j] == InsnKills(body.script, out, j))
    && forall i :: 0 <= i < |body.targets| ==>
         TargetDone(|body.targets| > 1, out, gen[body.targets[i]], touched, perTarget[i], kills.killPerTarget[i])
  }

  ghost predicate TargetDone(multiple: bool, out: set<Uid>, needed: set<Uid>, touched: set<Uid>, perTarget: set<Uid>,
                             killed: set<Uid>)
  {
    if multiple then perTarget == needed + touched && killed == touched * (out - needed) else killed == {}
  }

  /** What the work on one instruction changes; `toKill` is its own. */
  datatype State = State(live: set<Uid>, toKill: set<Uid>, perTarget: seq<set<Uid>>, killPerTarget: seq<set<Uid>>)

  /** From `a` to `b` the variables `done` were worked on, those in `gen` read first, for `n` targets. */
  ghost predicate Swept(n: nat, a: State, b: State, gen: set<Uid>, done: set<Uid>) {
    && |a.perTarget| == |b.perTarget| == |a.killPerTarget| == |b.killPerTarget| == n
    && b.live == (a.live - done) + gen * done
    && b.toKill == a.toKill + (done - a.live)
    && forall i :: 0 <= i < n ==>
         if n > 1 then
           TargetStepped(done, a.live, a.perTarget[i], b.perTarget[i], a.killPerTarget[i], b.killPerTarget[i])
         else b.killPerTarget[i] == a.killPerTarget[i]
  }

  /** With one target at most, no branch kills anything. */
  lemma NoneToFinish(body: Body, gen: Solution, live: set<Uid>, perTarget: seq<set<Uid>>, kills: Kills)
    requires InRange(body.targets, |gen|) && Done(body, gen, 0, live, perTarget, kills) && |body.targets| <= 1
    ensures BlockKills(body, gen, kills)
  {}

  /** What some variables do for one of several targets. */
  ghost predicate TargetStepped(touched: set<Uid>, live: set<Uid>, per: set<Uid>, per': set<Uid>, killed: set<Uid>,
                                killed': set<Uid>)
  {
    per' == per + touched && killed' == killed + (touched * live - per)
  }

  lemma SweptNext(n: nat, a: State, b: State, c: State, gen: set<Uid>, done: set<Uid>, v: Uid)
    requires Swept(n, a, b, gen, done) && v !in done && Swept(n, b, c, gen, {v})
    ensures Swept(n, a, c, gen, done + {v})
  {
    forall i | 0 <= i < n && n > 1
      ensures TargetStepped(done + {v}, a.live, a.perTarget[i], c.perTarget[i], a.killPerTarget[i], c.killPerTarget[i])
    {
      assert TargetStepped(done, a.live, a.perTarget[i], b.perTarget[i], a.killPerTarget[i], b.killPerTarget[i]);
    }
  }

  lemma DoneStep(body: Body, gen: Solution, k: nat, vars: seq<set<Uid>>, vars': seq<set<Uid>>, a: State, b: State)
    requires k < |body.script| && InRange(body.targets, |gen|)
    requires Done(body, gen, k + 1, a.live, a.perTarget, Kills(vars, a.killPerTarget))
    requires Swept(|body.targets|, a, b, Gen(body.script[k]), Gen(body.script[k]) + Kill(body.script[k]))
    requires |vars'| == |body.script| && vars'[k] == b.toKill && a.toKill == {}
    requires forall j :: k < j < |body.script| ==> vars'[j] == vars[j]
    ensures Done(body, gen, k, b.live, b.perTarget, Kills(vars', b.killPerTarget))
  {
    var es := body.script[k];
    var out := OutLive(body, gen);
    LiveStep(body.script, out, k);
    MentionsStep(body.script, k);
    MentionsIsGenOrKill(es);
    var touched := Mentions(TailEvents(body.script, k + 1));
    forall i | 0 <= i < |body.targets|
      ensures TargetDone(|body.targets| > 1, out, gen[body.targets[i]], Mentions(es) + touched, b.perTarget[i],
                b.killPerTarget[i])
    {
      if |body.targets| > 1 {
        TargetStep(body.script, k + 1, out, Mentions(es), touched, gen[body.targets[i]], a.perTarget[i],
          b.perTarget[i], a.killPerTarget[i], b.killPerTarget[i]);
      }
    }
  }

  lemma TargetStep(script: Script, k: nat, out: set<Uid>, now: set<Uid>, touched: set<Uid>, needed: set<Uid>,
                   per: set<Uid>, per': set<Uid>, killed: set<Uid>, killed': set<Uid>)
    requires k <= |script| && touched == Mentions(TailEvents(script, k))
    requires TargetDone(true, out, needed, touched, per, killed)
    requires TargetStepped(now, LiveFrom(script, out, k), per, per', killed, killed')
    ensures TargetDone(true, out, needed, now + touched, per', killed')
  {
    forall v | v !in touched
      ensures v in LiveFrom(script, out, k) <==> v in out
    {
      UntouchedLive(script, out, k, v);
    }
    assert killed' == (now + touched) * (out - needed);
  }

  /** The work on one block: what is live, for all targets together and for each one. */
  class BlockCommit {
    const block: Block
    const aliases: Aliases
    var live: set<Uid>
    var livePerTarget: seq<set<Uid>>
    var varsToKill: seq<set<Uid>>
    var killPerTarget: seq<set<Uid>>

    constructor (block: Block, aliases: Aliases)
      ensures this.block == block && this.aliases == aliases && live == {}
      ensures livePerTarget == killPerTarget == seq(|block.targets|, _ => {})
      ensures varsToKill == seq(|block.insns|, _ => {})
    {
      this.block, this.aliases := block, aliases;
      live := {};
      livePerTarget, killPerTarget := seq(|block.targets|, _ => {}), seq(|block.targets|, _ => {});
      varsToKill := seq(|block.insns|, _ => {});
    }

    ghost predicate Shaped()
      reads this
    {
      |livePerTarget| == |killPerTarget| == |block.targets| && |varsToKill| == |block.insns|
    }

    ghost predicate Progress(gen: Solution, k: nat)
      requires k <= |block.insns| && ValidInsns(block.insns) && InRange(block.targets, |gen|)
      reads this
    {
      Shaped() && Done(BodyOf(block, aliases), gen, k, live, livePerTarget, Kills(varsToKill, killPerTarget))
    }

    /** Collects what the targets need. */
    method CollectLive(gen: Solution)
      requires ValidInsns(block.insns) && InRange(block.targets, |gen|) && Shaped() && live == {}
      requires forall i :: 0 <= i < |block.targets| ==> livePerTarget[i] == killPerTarget[i] == {}
      modifies this`live, this`livePerTarget
      ensures Progress(gen, |block.insns|)
    {
      var targets := block.targets;
      for i := 0 to |targets|
        invariant Shaped() && live == OutOf(gen, targets[..i])
        invariant forall j :: 0 <= j < |targets| && |targets| > 1 ==>
          livePerTarget[j] == if j < i then gen[targets[j]] else {}
      {
        OutOfMore(gen, targets, i);
        live := live + gen[targets[i]];
        if |targets| > 1 {
          livePerTarget := livePerTarget[i := livePerTarget[i] + gen[targets[i]]];
        }
      }
      assert targets[..|targets|] == targets;
      if |targets| == 0 {
        live := live + aliases.Values;
      }
    }

    /** Kills one variable on one branch. */
    method KillVariablePerTarget(i: nat, uid: Uid)
      requires Shaped() && i < |block.targets|
      modifies this`killPerTarget
      ensures Shaped() && killPerTarget == old(killPerTarget)[i := old(killPerTarget[i]) + {uid}]
    {
      killPerTarget := killPerTarget[i := killPerTarget[i] + {uid}];
    }

    /** Keeps a variable from being killed again, for each target. */
    method MarkLive(v: Uid)
      requires Shaped()
      modifies this`livePerTarget
      ensures Shaped()
      ensures forall i :: 0 <= i < |block.targets| ==> livePerTarget[i] == old(livePerTarget[i]) + {v}
    {
      for i := 0 to |block.targets|
        invariant Shaped()
        invariant forall j :: 0 <= j < |block.targets| ==>
          livePerTarget[j] == old(livePerTarget[j]) + if j < i then {v} else {}
      {
        livePerTarget := livePerTarget[i := livePerTarget[i] + {v}];
      }
    }

    /** Kills a variable on the branches whose targets do not have it. */
    method KillWhereDead(v: Uid)
      requires Shaped()
      modifies this`livePerTarget, this`killPerTarget
      ensures Shaped()
      ensures forall i :: 0 <= i < |block.targets| ==>
        && livePerTarget[i] == old(livePerTarget[i]) + {v}
        && killPerTarget[i] == old(killPerTarget[i]) + if v in old(livePerTarget[i]) then {} else {v}
    {
      for i := 0 to |block.targets|
        invariant Shaped()
        invariant forall j :: 0 <= j < |block.targets| ==>
          && livePerTarget[j] == old(livePerTarget[j]) + (if j < i then {v} else {})
          && killPerTarget[j] == old(killPerTarget[j]) + if i <= j || v in old(livePerTarget[j]) then {} else {v}
      {
        if v in livePerTarget[i] {
          continue;
        }
        livePerTarget := livePerTarget[i := livePerTarget[i] + {v}];
        KillVariablePerTarget(i, v);
      }
    }

    ghost function StateAt(k: nat): State
      requires k < |varsToKill|
      reads this
    {
      State(live, varsToKill[k], livePerTarget, killPerTarget)
    }

    /** One variable that the `k`th instruction touches. */
    method CommitVar(k: nat, v: Uid, isGen: bool, ghost gen: set<Uid>)
      requires Shaped() && k < |block.insns| && isGen == (v in gen)
      modifies this
      ensures Shaped() && Swept(|block.targets|, old(StateAt(k)), StateAt(k), gen, {v})
      ensures forall j :: 0 <= j < |block.insns| && j != k ==> varsToKill[j] == old(varsToKill[j])
    {
      var multipleTargets := 1 < |block.targets|;
      if v !in live {
        live := live + {v};
        varsToKill := varsToKill[k := varsToKill[k] + {v}];
        if multipleTargets {
          MarkLive(v);
        }
      }
      if !isGen {
        live := live - {v};
      }
      if !multipleTargets {
        return;
      }
      KillWhereDead(v);
    }

    /** All variables that the `k`th instruction touches, in any order. */
    method CommitTouched(k: nat, gen: set<Uid>, touched: set<Uid>)
      requires Shaped() && k < |block.insns|
      modifies this
      ensures Shaped() && Swept(|block.targets|, old(StateAt(k)), StateAt(k), gen, touched)
      ensures forall j :: 0 <= j < |block.insns| && j != k ==> varsToKill[j] == old(varsToKill[j])
    {
      var rest := touched;
      while rest != {}
        invariant rest <= touched && Shaped()
        invariant Swept(|block.targets|, old(StateAt(k)), StateAt(k), gen, touched - rest)
        invariant forall j :: 0 <= j < |block.insns| && j != k ==> varsToKill[j] == old(varsToKill[j])
      {
        var v :| v in rest;
        ghost var before := StateAt(k);
        CommitVar(k, v, v in gen, gen);
        SweptNext(|block.targets|, old(StateAt(k)), before, StateAt(k), gen, touched - rest, v);
        assert touched - rest + {v} == touched - (rest - {v});
        rest := rest - {v};
      }
      assert touched - {} == touched;
    }

    /** The `k`th instruction, with all after it done. */
    method CommitInsn(k: nat, ghost gen: Solution)
      requires ValidInsns(block.insns) && InRange(block.targets, |gen|) && k < |block.insns|
      requires Progress(gen, k + 1) && varsToKill[k] == {}
      modifies this
      ensures Progress(gen, k)
      ensures forall j :: 0 <= j < k ==> varsToKill[j] == old(varsToKill[j])
    {
      var arena := new BlockData();
      assert [] + InsnEvents(block.insns[k], aliases) == InsnEvents(block.insns[k], aliases);
      arena.ScanInsn(block.insns[k], aliases, []);
      CommitTouched(k, arena.gen, arena.gen + arena.kill);
      DoneStep(BodyOf(block, aliases), gen, k, old(varsToKill), varsToKill, old(StateAt(k)), StateAt(k));
    }

    /** The ordered walk over what is live at the start and what is live or killed for one target. */
    method FinishTarget(target: nat)
      requires Shaped() && target < |block.targets|
      modifies this`killPerTarget
      ensures Shaped()
      ensures forall i :: 0 <= i < |block.targets| && i != target ==> killPerTarget[i] == old(killPerTarget[i])
      ensures forall v :: v in killPerTarget[target] <==>
        v in old(killPerTarget[target]) ||
        (v in live && v !in livePerTarget[target] && BelowSome(v, livePerTarget[target]))
    {
      var perTarget := livePerTarget[target];
      var lives, pers := live, perTarget;
      while lives != {} && pers != {}
        invariant Shaped() && lives <= live && pers <= perTarget
        invariant forall i :: 0 <= i < |block.targets| && i != target ==> killPerTarget[i] == old(killPerTarget[i])
        invariant forall v, w :: v in lives && w in perTarget && w !in pers ==> w < v
        invariant forall v :: v in killPerTarget[target] <==>
          v in old(killPerTarget[target]) ||
          (v in live && v !in lives && v !in perTarget && BelowSome(v, perTarget))
        invariant forall v :: v in live && v !in lives && v !in perTarget ==> BelowSome(v, perTarget)
        decreases |lives| + |pers|
      {
        var uidLive := Collections.Smallest(lives);
        var uidPerTarget := Collections.Smallest(pers);
        if uidPerTarget < uidLive {
          pers := pers - {uidPerTarget};
          continue;
        } else if uidLive == uidPerTarget {
          pers, lives := pers - {uidPerTarget}, lives - {uidLive};
          continue;
        }
        assert BelowSome(uidLive, perTarget);
        KillVariablePerTarget(target, uidLive);
        lives := lives - {uidLive};
      }
    }

    method CommitBlock(gen: Solution)
      requires ValidInsns(block.insns) && InRange(block.targets, |gen|) && Shaped() && live == {}
      requires forall i :: 0 <= i < |block.targets| ==> livePerTarget[i] == killPerTarget[i] == {}
      requires forall k :: 0 <= k < |block.insns| ==> varsToKill[k] == {}
      modifies this
      ensures BlockKills(BodyOf(block, aliases), gen, Kills(varsToKill, killPerTarget))
    {
      hide LiveFrom, InsnKills, TargetDone, OutLive, Mentions;
      CollectLive(gen);
      var k := |block.insns|;
      while 0 < k
        invariant 0 <= k <= |block.insns| && Progress(gen, k)
        invariant forall j :: 0 <= j < k ==> varsToKill[j] == {}
      {
        k := k - 1;
        CommitInsn(k, gen);
      }
      if |block.targets| <= 1 {
        NoneToFinish(BodyOf(block, aliases), gen, live, livePerTarget, Kills(varsToKill, killPerTarget));
        return;
      }
      FinishTargets(gen);
    }

    /** What no instruction of the block touches. */
    method FinishTargets(ghost gen: Solution)
      requires ValidInsns(block.insns) && InRange(block.targets, |gen|) && Progress(gen, 0) && |block.targets| > 1
      modifies this`killPerTarget
      ensures BlockKills(BodyOf(block, aliases), gen, Kills(varsToKill, killPerTarget))
    {
      ghost var body := BodyOf(block, aliases);
      ghost var out := OutLive(body, gen);
      ghost var touched := Mentions(TailEvents(body.script, 0));
      for target := 0 to |block.targets|
        invariant Shaped()
        invariant forall i :: target <= i < |block.targets| ==> killPerTarget[i] == old(killPerTarget[i])
        invariant forall i, v :: 0 <= i < target ==>
          (v in killPerTarget[i] <==> EdgeKills(out, gen[block.targets[i]], touched, v))
      {
        FinishTarget(target);
        forall v
          ensures v in killPerTarget[target] <==> EdgeKills(out, gen[block.targets[target]], touched, v)
        {
          FinishedTarget(body.script, out, touched, gen[block.targets[target]], livePerTarget[target],
            old(killPerTarget[target]), v);
        }
      }
    }
  }

  lemma FinishedTarget(script: Script, out: set<Uid>, touched: set<Uid>, needed: set<Uid>, per: set<Uid>,
                       killed: set<Uid>, v: Uid)
    requires touched == Mentions(TailEvents(script, 0)) && TargetDone(true, out, needed, touched, per, killed)
    ensures v in killed || (v in LiveFrom(script, out, 0) && v !in per && BelowSome(v, per)) <==>
            EdgeKills(out, needed, touched, v)
  {
    if v !in touched {
      UntouchedLive(script, out, 0, v);
    }
  }

  ghost predicate Planned(flow: Flow, gen: Solution, plan: seq<Kills>)
    requires ValidFlow(flow) && |gen| == |flow|
  {
    |plan| == |flow| && forall b :: 0 <= b < |flow| ==> BlockKills(flow[b], gen, plan[b])
  }

  /** The whole analysis of one function. */
  method AnalyzeFnc(cfg: Cfg, aliases: Aliases) returns (gen: Solution, plan: seq<Kills>)
    requires ValidCfg(cfg)
    ensures Exact(FlowOf(cfg, aliases), gen) && Solves(FlowOf(cfg, aliases), gen)
    ensures Planned(FlowOf(cfg, aliases), gen, plan)
  {
    var killer := new VarKiller(cfg, aliases);
    killer.ScanBlocks();
    killer.ComputeFixPoint();
    gen := killer.gen;
    plan := CommitBlocks(cfg, aliases, gen);
  }

  method CommitBlocks(cfg: Cfg, aliases: Aliases, gen: Solution) returns (plan: seq<Kills>)
    requires ValidCfg(cfg) && |gen| == |cfg|
    ensures Planned(FlowOf(cfg, aliases), gen, plan)
  {
    hide BlockKills;
    ghost var flow := FlowOf(cfg, aliases);
    plan := [];
    for b := 0 to |cfg|
      invariant |plan| == b && forall c :: 0 <= c < b ==> BlockKills(flow[c], gen, plan[c])
    {
      var kills := CommitOne(cfg[b], aliases, gen);
      plan := plan + [kills];
    }
  }

  method CommitOne(block: Block, aliases: Aliases, gen: Solution) returns (kills: Kills)
    requires ValidInsns(block.insns) && InRange(block.targets, |gen|)
    ensures BlockKills(BodyOf(block, aliases), gen, kills)
  {
    var commit := new BlockCommit(block, aliases);
    commit.CommitBlock(gen);
    kills := Kills(commit.varsToKill, commit.killPerTarget);
  }

  // ---------- what the plan means ----------

  /** Some path from before the `k`th instruction of block `b` reads `v` before overwriting it. */
  ghost predicate NeededFrom(flow: Flow, b: nat, k: nat, v: Uid)
    requires ValidFlow(flow) && b < |flow| && k <= |flow[b].script|
  {
    var es := TailEvents(flow[b].script, k);
    || ReadFirst(es, v)
    || (Def(v) !in es &&
        (v in flow[b].exit || exists i :: 0 <= i < |flow[b].targets| && LiveAtStart(flow, flow[b].targets[i], v)))
  }

  lemma LiveFromMeans(flow: Flow, gen: Solution, b: nat, k: nat, v: Uid)
    requires ValidFlow(flow) && Exact(flow, gen) && b < |flow| && k <= |flow[b].script|
    ensures v in LiveFrom(flow[b].script, OutLive(flow[b], gen), k) <==> NeededFrom(flow, b, k, v)
  {
    GenReadFirst(TailEvents(flow[b].script, k), v);
    var targets := flow[b].targets;
    if v in OutOf(gen, targets) {
      var t :| t in targets && v in gen[t];
      var i :| 0 <= i < |targets| && targets[i] == t;
      assert LiveAtStart(flow, targets[i], v);
    }
    if i :| 0 <= i < |targets| && LiveAtStart(flow, targets[i], v) {
      assert targets[i] in targets && v in gen[targets[i]];
    }
  }

  /** An instruction kills exactly what it touches and no path after it needs. */
  lemma InsnKillsExactly(flow: Flow, gen: Solution, plan: seq<Kills>, b: nat, k: nat, v: Uid)
    requires ValidFlow(flow) && Exact(flow, gen) && Planned(flow, gen, plan) && b < |flow| && k < |flow[b].script|
    ensures BlockKills(flow[b], gen, plan[b])
    ensures v in plan[b].varsToKill[k] <==> v in Mentions(flow[b].script[k]) && !NeededFrom(flow, b, k + 1, v)
  {
    LiveFromMeans(flow, gen, b, k + 1, v);
  }

  ghost predicate Greatest(v: Uid, vs: set<Uid>) {
    v in vs && forall w :: w in vs ==> w <= v
  }

  /** A branch kills everything that dies on it, if and only if the greatest variable needed after the block or
      touched in it is needed by that branch's own target or touched in the block: the ordered
      walk stops too early otherwise. */
  lemma EdgeKillsComplete(body: Body, gen: Solution, kills: Kills, i: nat, top: Uid)
    requires InRange(body.targets, |gen|) && BlockKills(body, gen, kills)
    requires i < |body.targets| && |body.targets| > 1
    requires Greatest(top, OutLive(body, gen) + Mentions(TailEvents(body.script, 0)))
    ensures
      (forall v :: v in OutLive(body, gen) && v !in gen[body.targets[i]] ==> v in kills.killPerTarget[i]) <==>
      top in gen[body.targets[i]] + Mentions(TailEvents(body.script, 0))
  {
    var out, needed := OutLive(body, gen), gen[body.targets[i]];
    var touched := Mentions(TailEvents(body.script, 0));
    assert needed <= out by {
      assert body.targets[i] in body.targets;
    }
    if top in needed + touched {
      forall v | v in out && v !in needed
        ensures v in kills.killPerTarget[i]
      {
        if v !in touched {
          assert v < top && BelowSome(v, needed + touched);
        }
        assert EdgeKills(out, needed, touched, v);
      }
    } else {
      assert top in out && !EdgeKills(out, needed, touched, top);
    }
  }

  function Fugitive(): Flow {
    [Body([[]], [1, 2], {}), Body([[Use(5)]], [], {}), Body([[]], [], {})]
  }

  /** Block 0 branches to block 1, which needs variable 5, and to block 2, which needs nothing: 5 dies on the way to 2,
      but is not killed there. */
  lemma UntouchedFugitiveSurvives(gen: Solution, kills: Kills)
    requires ValidFlow(Fugitive()) && Solves(Fugitive(), gen) && BlockKills(Fugitive()[0], gen, kills)
    ensures 5 in OutLive(Fugitive()[0], gen) && 5 !in gen[2] && 5 !in kills.killPerTarget[1]
  {
    var flow := Fugitive();
    assert SolvesAt(flow, gen, 1) && SolvesAt(flow, gen, 2);
    assert TailEvents(flow[0].script, 0) == [] && Mentions([]) == {};
    assert HeadEvents(flow[1].script, 1) == [Use(5)] && [Use(5)][..0] == [] && Gen([Use(5)]) == {5};
    assert HeadEvents(flow[2].script, 1) == [];
    assert gen[1] == {5} && gen[2] == {};
    assert 1 in flow[0].targets && 5 in gen[1];
    assert !EdgeKills(OutLive(flow[0], gen), gen[2], {}, 5);
  }
}
