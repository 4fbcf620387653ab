/** Runs of a function with and without the planted kills: they cannot be told apart. */
module KillerRuns {
  import opened Liveness
  import opened Execution
  import opened VarKiller
  import opened KillCommit

  type Value = int
  type Env = Uid -> Value
  type Readings = map<Uid, Value>

  /** All that is not a local variable: globals, the heap, input still to be read, output written. */
  type World = map<int, Value>

  /** What the instructions compute: the value of a variable that is overwritten, that of one of which a part is (from
      the value it had), the world after them, and which branch is taken, all from the variables that the instruction
      reads and from the world. */
  datatype Machine = Machine(write: (nat, nat, Readings, World) -> Value,
                             update: (nat, nat, Value, Readings, World) -> Value,
                             act: (nat, nat, Readings, World) -> World, branch: (nat, Readings, World) -> nat)

  /** Before an instruction, or out of the function. */
  datatype Conf = At(b: nat, k: nat, env: Env, world: World) | Left(b: nat, env: Env, world: World)

  function Read(insn: Insn, aliases: Aliases, env: Env): Readings
    requires ValidInsn(insn)
  {
    map v | v in Reads(insn, aliases) :: env(v)
  }

  /** Only the place that the instruction writes changes. */
  function Perform(m: Machine, b: nat, k: nat, insn: Insn, aliases: Aliases, env: Env, world: World): Env
    requires ValidInsn(insn)
  {
    var readings, p := Read(insn, aliases, env), Target(insn, aliases);
    (v: Uid) =>
      if p == Var(v, true) then m.write(b, k, readings, world)
      else if p == Var(v, false) then m.update(b, k, env(v), readings, world)
      else env(v)
  }

  /** Killed variables take whatever values `junk` has for them. */
  function Forget(env: Env, killed: set<Uid>, junk: Env): Env {
    (v: Uid) => if v in killed then junk(v) else env(v)
  }

  ghost predicate ValidConf(cfg: Cfg, conf: Conf) {
    conf.b < |cfg| && (conf.At? ==> conf.k < |cfg[conf.b].insns|)
  }

  function Taken(m: Machine, b: nat, readings: Readings, world: World, targets: seq<nat>): nat
    requires targets != []
  {
    m.branch(b, readings, world) % |targets|
  }

  ghost predicate Shaped(flow: Flow, plan: seq<Kills>) {
    |plan| == |flow| && forall b :: 0 <= b < |flow| ==> Fits(flow[b], plan[b])
  }

  ghost predicate Fits(body: Body, kills: Kills) {
    |kills.varsToKill| == |body.script| && |kills.killPerTarget| == |body.targets|
  }

  ghost predicate Branches(body: Body, k: nat) {
    k + 1 == |body.script| && body.targets != []
  }

  /** One instruction, followed by the kills of `plan`. */
  ghost function Step(m: Machine, cfg: Cfg, aliases: Aliases, plan: seq<Kills>, junk: Env, conf: Conf): (r: Conf)
    requires ValidCfg(cfg) && ValidConf(cfg, conf) && Shaped(FlowOf(cfg, aliases), plan)
    ensures ValidConf(cfg, r)
  {
    if conf.Left? then conf else StepIn(m, cfg, aliases, plan[conf.b], junk, conf)
  }

  ghost function StepIn(m: Machine, cfg: Cfg, aliases: Aliases, kills: Kills, junk: Env, conf: Conf): (r: Conf)
    requires ValidCfg(cfg) && ValidConf(cfg, conf) && conf.At? && Fits(BodyOf(cfg[conf.b], aliases), kills)
    ensures ValidConf(cfg, r)
  {
    var block := cfg[conf.b];
    var insn := block.insns[conf.k];
    var readings := Read(insn, aliases, conf.env);
    var env := Forget(Perform(m, conf.b, conf.k, insn, aliases, conf.env, conf.world), kills.varsToKill[conf.k], junk);
    var world := m.act(conf.b, conf.k, readings, conf.world);
    if conf.k + 1 < |block.insns| then At(conf.b, conf.k + 1, env, world)
    else if block.targets == [] then Left(conf.b, env, world)
    else
      var i := Taken(m, conf.b, readings, conf.world, block.targets);
      At(block.targets[i], 0, Forget(env, kills.killPerTarget[i], junk), world)
  }

  function NoKillsIn(body: Body): (r: Kills)
    ensures Fits(body, r)
  {
    Kills(seq(|body.script|, _ => {}), seq(|body.targets|, _ => {}))
  }

  function NoKills(flow: Flow): (r: seq<Kills>)
    ensures Shaped(flow, r) && forall b :: 0 <= b < |flow| ==> r[b] == NoKillsIn(flow[b])
  {
    seq(|flow|, b requires 0 <= b < |flow| => NoKillsIn(flow[b]))
  }

  /** Where control is, what is read there, or handed over when it leaves, and what the world is like. */
  datatype Observation =
    | Here(b: nat, k: nat, readings: Readings, world: World)
    | Gone(b: nat, left: Readings, world: World)

  ghost function Observed(cfg: Cfg, aliases: Aliases, conf: Conf): Observation
    requires ValidCfg(cfg) && ValidConf(cfg, conf)
  {
    match conf
    case At(b, k, env, world) => Here(b, k, Read(cfg[b].insns[k], aliases, env), world)
    case Left(b, env, world) =>
      Gone(b, map v | v in (if cfg[b].targets == [] then aliases.Values else {}) :: env(v), world)
  }

  /** What is observed in `n` steps, `junk` saying what killed variables hold at each step. */
  ghost function Trace(m: Machine, cfg: Cfg, aliases: Aliases, plan: seq<Kills>, junk: nat -> Env, conf: Conf,
                       n: nat): seq<Observation>
    requires ValidCfg(cfg) && ValidConf(cfg, conf) && Shaped(FlowOf(cfg, aliases), plan)
    decreases n
  {
    [Observed(cfg, aliases, conf)] + if n == 0 then []
      else Trace(m, cfg, aliases, plan, junk, Step(m, cfg, aliases, plan, junk(n), conf), n - 1)
  }

  // ---------- kills are harmless ----------

  ghost function LiveAt(cfg: Cfg, aliases: Aliases, gen: Solution, conf: Conf): set<Uid>
    requires ValidCfg(cfg) && ValidConf(cfg, conf) && |gen| == |cfg|
  {
    var body := FlowOf(cfg, aliases)[conf.b];
    if conf.At? then LiveFrom(body.script, OutLive(body, gen), conf.k) else body.exit
  }

  ghost predicate Agree(cfg: Cfg, aliases: Aliases, gen: Solution, c: Conf, d: Conf)
    requires ValidCfg(cfg) && ValidConf(cfg, c) && |gen| == |cfg|
  {
    && (c.At? <==> d.At?) && c.b == d.b && (c.At? ==> c.k == d.k) && c.world == d.world
    && forall v :: v in LiveAt(cfg, aliases, gen, c) ==> c.env(v) == d.env(v)
  }

  /** What a block needs at its start, computed from its end, is what the fixed point says. */
  lemma LiveAtBlockStart(flow: Flow, gen: Solution, b: nat)
    requires ValidFlow(flow) && Solves(flow, gen) && b < |flow|
    ensures LiveFrom(flow[b].script, OutLive(flow[b], gen), 0) == gen[b]
  {
    assert SolvesAt(flow, gen, b);
    HeadIsTail(flow[b].script);
  }

  /** What an instruction reads is live before it. */
  lemma ReadingsAgree(block: Block, aliases: Aliases, gen: Solution, k: nat, e: Env, f: Env)
    requires ValidInsns(block.insns) && InRange(block.targets, |gen|) && k < |block.insns|
    requires PlainInsn(block.insns[k], aliases)
    requires
      var body := BodyOf(block, aliases);
      forall u :: u in LiveFrom(body.script, OutLive(body, gen), k) ==> e(u) == f(u)
    ensures Read(block.insns[k], aliases, e) == Read(block.insns[k], aliases, f)
  {
    var body := BodyOf(block, aliases);
    LiveStep(body.script, OutLive(body, gen), k);
    EventsTell(block.insns[k], aliases);
  }

  /** What is live after an instruction is overwritten as a whole by it, or live before it. */
  lemma PerformAgrees(m: Machine, block: Block, aliases: Aliases, gen: Solution, b: nat, k: nat, e: Env, f: Env,
                      world: World, v: Uid)
    requires ValidInsns(block.insns) && InRange(block.targets, |gen|) && k < |block.insns|
    requires PlainInsn(block.insns[k], aliases)
    requires
      var body := BodyOf(block, aliases);
      && (forall u :: u in LiveFrom(body.script, OutLive(body, gen), k) ==> e(u) == f(u))
      && v in LiveFrom(body.script, OutLive(body, gen), k + 1)
    ensures
      var insn := block.insns[k];
      Perform(m, b, k, insn, aliases, e, world)(v) == Perform(m, b, k, insn, aliases, f, world)(v)
  {
    hide LiveFrom, OutLive, Target, Reads, InsnEvents;
    var body := BodyOf(block, aliases);
    ReadingsAgree(block, aliases, gen, k, e, f);
    LiveStep(body.script, OutLive(body, gen), k);
    EventsTell(block.insns[k], aliases);
  }

  /** The instruction and its own kills. */
  lemma AgreeAfterInsn(m: Machine, block: Block, aliases: Aliases, gen: Solution, b: nat, k: nat, kills: Kills, e: Env,
                       f: Env, world: World, junk: Env, junk': Env, v: Uid)
    requires ValidInsns(block.insns) && InRange(block.targets, |gen|) && k < |block.insns|
    requires PlainInsn(block.insns[k], aliases) && BlockKills(BodyOf(block, aliases), gen, kills)
    requires
      var body := BodyOf(block, aliases);
      && (forall u :: u in LiveFrom(body.script, OutLive(body, gen), k) ==> e(u) == f(u))
      && v in LiveFrom(body.script, OutLive(body, gen), k + 1)
    ensures
      var insn := block.insns[k];
      Forget(Perform(m, b, k, insn, aliases, e, world), {}, junk)(v) ==
      Forget(Perform(m, b, k, insn, aliases, f, world), kills.varsToKill[k], junk')(v)
  {
    hide Perform, LiveFrom, Mentions;
    PerformAgrees(m, block, aliases, gen, b, k, e, f, world, v);
    var body := BodyOf(block, aliases);
    assert v !in InsnKills(body.script, OutLive(body, gen), k);
  }

  lemma EndLive(script: Script, out: set<Uid>)
    ensures LiveFrom(script, out, |script|) == out
  {
    assert TailEvents(script, |script|) == [];
  }

  /** What the target of a branch needs is live before the branch and not killed on it. */
  lemma KeptOnBranch(body: Body, gen: Solution, kills: Kills, i: nat, v: Uid)
    requires InRange(body.targets, |gen|) && BlockKills(body, gen, kills) && i < |body.targets|
    requires v in gen[body.targets[i]]
    ensures v in LiveFrom(body.script, OutLive(body, gen), |body.script|) && v !in kills.killPerTarget[i]
  {
    assert body.targets[i] in body.targets && v in OutLive(body, gen);
    EndLive(body.script, OutLive(body, gen));
    assert !EdgeKills(OutLive(body, gen), gen[body.targets[i]], Mentions(TailEvents(body.script, 0)), v);
  }

  /** The last instruction of a block, its kills, and those on the branch taken. */
  lemma AgreeAfterBranch(m: Machine, block: Block, aliases: Aliases, gen: Solution, b: nat, k: nat, i: nat,
                         kills: Kills, e: Env, f: Env, world: World, junk: Env, junk': Env, v: Uid)
    requires ValidInsns(block.insns) && InRange(block.targets, |gen|) && k + 1 == |block.insns|
    requires PlainInsn(block.insns[k], aliases) && BlockKills(BodyOf(block, aliases), gen, kills)
    requires
      var body := BodyOf(block, aliases);
      forall u :: u in LiveFrom(body.script, OutLive(body, gen), k) ==> e(u) == f(u)
    requires i < |block.targets| && v in gen[block.targets[i]]
    ensures
      var insn := block.insns[k];
      Forget(Forget(Perform(m, b, k, insn, aliases, e, world), {}, junk), {}, junk)(v) ==
      Forget(Forget(Perform(m, b, k, insn, aliases, f, world), kills.varsToKill[k], junk'),
             kills.killPerTarget[i], junk')(v)
  {
    hide Perform;
    KeptOnBranch(BodyOf(block, aliases), gen, kills, i, v);
    AgreeAfterInsn(m, block, aliases, gen, b, k, kills, e, f, world, junk, junk', v);
  }

  lemma AgreeBranching(m: Machine, cfg: Cfg, aliases: Aliases, gen: Solution, kills: Kills, junk: Env, junk': Env,
                       c: Conf, d: Conf)
    requires ValidCfg(cfg) && ValidConf(cfg, c) && ValidConf(cfg, d) && c.At? && PlainCfg(cfg, aliases)
    requires Solves(FlowOf(cfg, aliases), gen) && Agree(cfg, aliases, gen, c, d)
    requires BlockKills(BodyOf(cfg[c.b], aliases), gen, kills) && Branches(BodyOf(cfg[c.b], aliases), c.k)
    requires Read(cfg[c.b].insns[c.k], aliases, c.env) == Read(cfg[c.b].insns[c.k], aliases, d.env)
    ensures
      var none := NoKillsIn(BodyOf(cfg[c.b], aliases));
      Agree(cfg, aliases, gen, StepIn(m, cfg, aliases, none, junk, c), StepIn(m, cfg, aliases, kills, junk', d))
  {
    hide Perform, Read;
    var block := cfg[c.b];
    var none := NoKillsIn(BodyOf(block, aliases));
    var c', d' := StepIn(m, cfg, aliases, none, junk, c), StepIn(m, cfg, aliases, kills, junk', d);
    var i := Taken(m, c.b, Read(block.insns[c.k], aliases, c.env), c.world, block.targets);
    LiveAtBlockStart(FlowOf(cfg, aliases), gen, c'.b);
    forall v | v in LiveAt(cfg, aliases, gen, c')
      ensures c'.env(v) == d'.env(v)
    {
      AgreeAfterBranch(m, block, aliases, gen, c.b, c.k, i, kills, c.env, d.env, c.world, junk, junk', v);
    }
  }

  lemma BlockKillsFit(body: Body, gen: Solution, kills: Kills)
    requires InRange(body.targets, |gen|) && BlockKills(body, gen, kills)
    ensures Fits(body, kills)
  {}

  lemma LiveHere(cfg: Cfg, aliases: Aliases, gen: Solution, c: Conf)
    requires ValidCfg(cfg) && ValidConf(cfg, c) && c.At? && |gen| == |cfg|
    ensures
      var body := BodyOf(cfg[c.b], aliases);
      LiveAt(cfg, aliases, gen, c) == LiveFrom(body.script, OutLive(body, gen), c.k)
  {}

  /** What is live at the next place in a block, or when it is left. */
  lemma LiveAfter(cfg: Cfg, aliases: Aliases, gen: Solution, c: Conf, next: Conf)
    requires ValidCfg(cfg) && ValidConf(cfg, c) && c.At? && ValidConf(cfg, next) && |gen| == |cfg| && next.b == c.b
    requires if next.At? then next.k == c.k + 1 else c.k + 1 == |cfg[c.b].insns|
    ensures
      var body := BodyOf(cfg[c.b], aliases);
      LiveAt(cfg, aliases, gen, next) <= LiveFrom(body.script, OutLive(body, gen), c.k + 1)
  {
    hide LiveFrom;
    var body := BodyOf(cfg[c.b], aliases);
    if next.Left? {
      EndLive(body.script, OutLive(body, gen));
    }
  }

  lemma AgreeWithin(m: Machine, cfg: Cfg, aliases: Aliases, gen: Solution, kills: Kills, junk: Env, junk': Env,
                    c: Conf, d: Conf)
    requires ValidCfg(cfg) && ValidConf(cfg, c) && ValidConf(cfg, d) && c.At? && PlainCfg(cfg, aliases)
    requires |gen| == |cfg| && Agree(cfg, aliases, gen, c, d)
    requires BlockKills(BodyOf(cfg[c.b], aliases), gen, kills) && !Branches(BodyOf(cfg[c.b], aliases), c.k)
    requires Read(cfg[c.b].insns[c.k], aliases, c.env) == Read(cfg[c.b].insns[c.k], aliases, d.env)
    ensures
      var none := NoKillsIn(BodyOf(cfg[c.b], aliases));
      Agree(cfg, aliases, gen, StepIn(m, cfg, aliases, none, junk, c), StepIn(m, cfg, aliases, kills, junk', d))
  {
    hide LiveFrom, Perform, Forget, Read, BlockKills, OutLive, PlainInsn, InsnEvents, LiveAt;
    var block := cfg[c.b];
    var body := BodyOf(block, aliases);
    var none := NoKillsIn(body);
    BlockKillsFit(body, gen, kills);
    var c', d' := StepIn(m, cfg, aliases, none, junk, c), StepIn(m, cfg, aliases, kills, junk', d);
    LiveHere(cfg, aliases, gen, c);
    LiveAfter(cfg, aliases, gen, c, c');
    forall v | v in LiveAt(cfg, aliases, gen, c')
      ensures c'.env(v) == d'.env(v)
    {
      AgreeAfterInsn(m, block, aliases, gen, c.b, c.k, kills, c.env, d.env, c.world, junk, junk', v);
    }
  }

  /** One step keeps the two runs together. */
  lemma AgreeStep(m: Machine, cfg: Cfg, aliases: Aliases, gen: Solution, kills: Kills, junk: Env, junk': Env,
                  c: Conf, d: Conf)
    requires ValidCfg(cfg) && ValidConf(cfg, c) && ValidConf(cfg, d) && c.At? && PlainCfg(cfg, aliases)
    requires Solves(FlowOf(cfg, aliases), gen) && Agree(cfg, aliases, gen, c, d)
    requires BlockKills(BodyOf(cfg[c.b], aliases), gen, kills)
    ensures
      var none := NoKillsIn(BodyOf(cfg[c.b], aliases));
      Agree(cfg, aliases, gen, StepIn(m, cfg, aliases, none, junk, c), StepIn(m, cfg, aliases, kills, junk', d))
    ensures Observed(cfg, aliases, c) == Observed(cfg, aliases, d)
  {
    hide StepIn, Read;
    ReadingsAgree(cfg[c.b], aliases, gen, c.k, c.env, d.env);
    if Branches(BodyOf(cfg[c.b], aliases), c.k) {
      AgreeBranching(m, cfg, aliases, gen, kills, junk, junk', c, d);
    } else {
      AgreeWithin(m, cfg, aliases, gen, kills, junk, junk', c, d);
    }
  }

  lemma PlannedIsShaped(flow: Flow, gen: Solution, plan: seq<Kills>)
    requires ValidFlow(flow) && |gen| == |flow| && Planned(flow, gen, plan)
    ensures Shaped(flow, plan)
  {
    forall b | 0 <= b < |flow|
      ensures Fits(flow[b], plan[b])
    {
      assert BlockKills(flow[b], gen, plan[b]);
    }
  }

  lemma StepsAgree(m: Machine, cfg: Cfg, aliases: Aliases, gen: Solution, plan: seq<Kills>, junk: Env, junk': Env,
                   c: Conf, d: Conf)
    requires ValidCfg(cfg) && ValidConf(cfg, c) && ValidConf(cfg, d) && PlainCfg(cfg, aliases)
    requires
      var flow := FlowOf(cfg, aliases);
      Solves(flow, gen) && Planned(flow, gen, plan) && Shaped(flow, plan)
    requires Agree(cfg, aliases, gen, c, d)
    ensures Observed(cfg, aliases, c) == Observed(cfg, aliases, d)
    ensures
      var none := NoKills(FlowOf(cfg, aliases));
      Agree(cfg, aliases, gen, Step(m, cfg, aliases, none, junk, c), Step(m, cfg, aliases, plan, junk', d))
  {
    hide StepIn, Read, BlockKills;
    if c.At? {
      AgreeStep(m, cfg, aliases, gen, plan[c.b], junk, junk', c, d);
    }
  }

  lemma TraceOn(m: Machine, cfg: Cfg, aliases: Aliases, plan: seq<Kills>, junk: nat -> Env, c: Conf, n: nat)
    requires ValidCfg(cfg) && ValidConf(cfg, c) && Shaped(FlowOf(cfg, aliases), plan)
    ensures
      Trace(m, cfg, aliases, plan, junk, c, n) == [Observed(cfg, aliases, c)] +
        if n == 0 then [] else Trace(m, cfg, aliases, plan, junk, Step(m, cfg, aliases, plan, junk(n), c), n - 1)
  {
    hide Observed, Step, ValidCfg, Shaped;
  }

  /** Whatever killed variables come to hold, a run with the kills goes the same way, reads the same values and does the
      same to the world, for any number of steps, as the run without, if all operands are plain. */
  lemma {:induction false} KillsAreHarmless(m: Machine, cfg: Cfg, aliases: Aliases, gen: Solution, plan: seq<Kills>,
                                            junk: nat -> Env, junk': nat -> Env, c: Conf, d: Conf, n: nat)
    requires ValidCfg(cfg) && PlainCfg(cfg, aliases)
    requires Solves(FlowOf(cfg, aliases), gen) && Planned(FlowOf(cfg, aliases), gen, plan)
    requires ValidConf(cfg, c) && ValidConf(cfg, d) && Agree(cfg, aliases, gen, c, d)
    ensures Shaped(FlowOf(cfg, aliases), plan)
    ensures Trace(m, cfg, aliases, NoKills(FlowOf(cfg, aliases)), junk, c, n) ==
            Trace(m, cfg, aliases, plan, junk', d, n)
    decreases n
  {
    hide Agree, Observed, Step, Planned, SolvesAt, PlainCfg, BodyOf, Trace, ValidCfg, ValidConf, Shaped;
    var flow := FlowOf(cfg, aliases);
    PlannedIsShaped(flow, gen, plan);
    StepsAgree(m, cfg, aliases, gen, plan, junk(n), junk'(n), c, d);
    TraceOn(m, cfg, aliases, NoKills(flow), junk, c, n);
    TraceOn(m, cfg, aliases, plan, junk', d, n);
    if n > 0 {
      var c' := Step(m, cfg, aliases, NoKills(flow), junk(n), c);
      var d' := Step(m, cfg, aliases, plan, junk'(n), d);
      KillsAreHarmless(m, cfg, aliases, gen, plan, junk, junk', c', d', n - 1);
    }
  }

  // ---------- a read that is not seen ----------

  /** `*p = c; r = p->f; *p = c; return r`, where p is 1, r is 3, and p is known to point to 2. */
  function HiddenRead(): Cfg {
    var store := Insn(Unop, [Local(1, [Deref]), Other([])]);
    var load := Insn(Unop, [Local(3, []), Local(1, [Deref, Item])]);
    [Block([store, load, store, Insn(Ret, [Local(3, [])])], [])]
  }

  function PointsToTwo(): Aliases {
    map[1 := 2]
  }

  lemma HiddenIsValid()
    ensures ValidCfg(HiddenRead()) && |HiddenRead()| == 1 && |HiddenRead()[0].insns| == 4
    ensures !PlainInsn(HiddenRead()[0].insns[1], PointsToTwo())
  {
    var block := HiddenRead()[0];
    forall k | 0 <= k < |block.insns|
      ensures ValidInsn(block.insns[k])
    {}
    var op := block.insns[1].operands[1];
    assert op == Local(1, [Deref, Item]);
    assert [Deref, Item][1..] == [Item] && [Item][1..] == [];
    assert Bare([Deref, Item]) == [Deref, Item];
    assert Item in [Deref, Item];
    assert !PlainPath(op.accessors, false);
    assert !Plain(op, PointsToTwo(), false);
  }

  /** What the store is seen to do, and what the load is. */
  lemma HiddenEvents()
    ensures InsnEvents(Insn(Unop, [Local(1, [Deref]), Other([])]), PointsToTwo()) == [Use(1), Def(2)]
    ensures InsnEvents(Insn(Unop, [Local(3, []), Local(1, [Deref, Item])]), PointsToTwo()) == [Use(1), Def(3)]
  {
    var aliases := PointsToTwo();
    var store, load := [Local(1, [Deref]), Other([])], [Local(3, []), Local(1, [Deref, Item])];
    assert [Deref][..0] == [] && [Deref, Item][..1] == [Deref];
    assert IndexEvents([Deref], aliases) == [] && IndexEvents([Deref, Item], aliases) == [];
    assert Deref in [Deref] && Deref in [Deref, Item] && Item in [Deref, Item];
    assert HasDeref([Deref]) && !HasField([Deref]) && HasDeref([Deref, Item]) && HasField([Deref, Item]);
    assert OperandEvents(store[0], aliases, true) == [Use(1), Def(2)];
    assert OperandEvents(load[1], aliases, false) == [Use(1)];
    assert !HasDeref([]) && !HasField([]);
    assert OperandEvents(load[0], aliases, true) == [Def(3)];
    assert OperandsEvents(store, aliases, 2) == [] && OperandsEvents(load, aliases, 2) == [];
    assert OperandsEvents(store, aliases, 1) == [];
    assert OperandsEvents(load, aliases, 1) == [Use(1)];
  }

  lemma HiddenNeeds()
    ensures 2 in Reads(HiddenRead()[0].insns[1], PointsToTwo())
    ensures Reads(HiddenRead()[0].insns[0], PointsToTwo()) == {1}
    ensures Target(HiddenRead()[0].insns[0], PointsToTwo()) == Var(2, true)
  {
    var aliases := PointsToTwo();
    assert [Deref, Item][1..] == [Item] && [Item][1..] == [] && [Deref][1..] == [];
    assert PlaceFrom(Var(2, true), [Item], aliases) == PlaceFrom(Var(2, false), [], aliases) == Var(2, false);
    assert PlaceOf(Local(1, [Deref, Item]), aliases) == Var(2, false);
    var ops := HiddenRead()[0].insns[1].operands;
    assert ops[1..] == [Local(1, [Deref, Item])];
    assert Local(1, [Deref, Item]) in ops[1..];
    assert 2 in Needed(Local(1, [Deref, Item]), aliases);
    var from := HiddenRead()[0].insns[0].operands;
    assert from[1..] == [Other([])] && Needed(Other([]), aliases) == {};
    assert LoadedFrom(Var(2, true), [], aliases) == {};
    assert Loaded(Local(1, [Deref]), aliases) == {1};
    assert PlaceFrom(Var(2, true), [], aliases) == Var(2, true);
  }

  lemma HiddenScript()
    requires ValidCfg(HiddenRead())
    ensures
      var script := FlowOf(HiddenRead(), PointsToTwo())[0].script;
      && |script| == 4 && script[0] == script[2] == [Use(1), Def(2)] && script[1] == [Use(1), Def(3)]
      && |HiddenRead()| == 1 && FlowOf(HiddenRead(), PointsToTwo())[0].targets == []
  {
    hide InsnEvents;
    HiddenEvents();
  }

  /** The target of the pointer is killed after the first store, and read by the load. */
  lemma HiddenIsKilled(gen: Solution, plan: seq<Kills>)
    requires ValidCfg(HiddenRead()) && |gen| == 1
    requires Planned(FlowOf(HiddenRead(), PointsToTwo()), gen, plan)
    ensures |plan| == 1 && |plan[0].varsToKill| == 4 && 2 in plan[0].varsToKill[0]
  {
    hide LiveFrom, OutLive, HiddenRead, PointsToTwo, BodyOf;
    HiddenScript();
    var body := FlowOf(HiddenRead(), PointsToTwo())[0];
    var out := OutLive(body, gen);
    LiveStep(body.script, out, 1);
    LiveStep(body.script, out, 2);
    GenOfTwo(1, 3);
    GenOfTwo(1, 2);
    assert 2 !in LiveFrom(body.script, out, 1);
    assert BlockKills(body, gen, plan[0]);
    assert Def(2) in body.script[0];
  }

  lemma GenOfTwo(u: Uid, v: Uid)
    ensures Gen([Use(u), Def(v)]) == {u} && Kill([Use(u), Def(v)]) == {v}
  {
    GenOne(Use(u));
    GenOne(Def(v));
    assert [Use(u), Def(v)] == [Use(u)] + [Def(v)];
    GenAppend([Use(u)], [Def(v)]);
  }

  /** The first step of any run of it, with the kills of any plan. */
  lemma HiddenFirstStep(m: Machine, plan: seq<Kills>, junk: Env, c: Conf)
    requires ValidCfg(HiddenRead()) && Shaped(FlowOf(HiddenRead(), PointsToTwo()), plan)
    requires ValidConf(HiddenRead(), c) && c.At? && c.k == 0
    ensures |plan| == 1 && |plan[0].varsToKill| == 4
    ensures
      var d := Step(m, HiddenRead(), PointsToTwo(), plan, junk, c);
      var insn := HiddenRead()[0].insns[0];
      && d.At? && d.k == 1
      && d.env(2) == if 2 in plan[0].varsToKill[0] then junk(2)
                     else m.write(0, 0, Read(insn, PointsToTwo(), c.env), c.world)
  {
    hide Read;
    HiddenNeeds();
    assert Fits(FlowOf(HiddenRead(), PointsToTwo())[0], plan[0]);
  }

  lemma TraceOfOne(m: Machine, cfg: Cfg, aliases: Aliases, plan: seq<Kills>, junk: nat -> Env, c: Conf)
    requires ValidCfg(cfg) && ValidConf(cfg, c) && Shaped(FlowOf(cfg, aliases), plan)
    ensures
      var trace := Trace(m, cfg, aliases, plan, junk, c, 1);
      |trace| == 2 && trace[1] == Observed(cfg, aliases, Step(m, cfg, aliases, plan, junk(1), c))
  {
    hide Observed, Step;
  }

  /** Without the condition on operands kills can do harm: whatever the solution and the plan, the load of this function
      does not read what was stored. */
  lemma HiddenReadHarmed(gen: Solution, plan: seq<Kills>)
    returns (m: Machine, junk: nat -> Env, junk': nat -> Env, c: Conf)
    requires ValidCfg(HiddenRead()) && Solves(FlowOf(HiddenRead(), PointsToTwo()), gen)
    requires Planned(FlowOf(HiddenRead(), PointsToTwo()), gen, plan)
    ensures Shaped(FlowOf(HiddenRead(), PointsToTwo()), plan) && ValidConf(HiddenRead(), c)
    ensures
      var none := NoKills(FlowOf(HiddenRead(), PointsToTwo()));
      Trace(m, HiddenRead(), PointsToTwo(), none, junk, c, 1) !=
      Trace(m, HiddenRead(), PointsToTwo(), plan, junk', c, 1)
  {
    hide Step, Observed, Planned, BlockKills, SolvesAt, Trace;
    var cfg, aliases := HiddenRead(), PointsToTwo();
    var none := NoKills(FlowOf(cfg, aliases));
    HiddenIsValid();
    HiddenIsKilled(gen, plan);
    PlannedIsShaped(FlowOf(cfg, aliases), gen, plan);
    m := Machine((_, _, _, _) => 0, (_, _, _, _, _) => 0, (_, _, _, w) => w, (_, _, _) => 0);
    c := At(0, 0, _ => 0, map[]);
    junk, junk' := _ => _ => 0, _ => _ => 1;
    HiddenFirstStep(m, none, junk(1), c);
    HiddenFirstStep(m, plan, junk'(1), c);
    TraceOfOne(m, cfg, aliases, none, junk, c);
    TraceOfOne(m, cfg, aliases, plan, junk', c);
    HiddenDiffers(Step(m, cfg, aliases, none, junk(1), c), Step(m, cfg, aliases, plan, junk'(1), c));
  }

  lemma HiddenDiffers(e: Conf, f: Conf)
    requires ValidCfg(HiddenRead()) && ValidConf(HiddenRead(), e) && ValidConf(HiddenRead(), f)
    requires e.At? && f.At? && e.k == f.k == 1 && e.env(2) != f.env(2)
    ensures Observed(HiddenRead(), PointsToTwo(), e) != Observed(HiddenRead(), PointsToTwo(), f)
  {
    HiddenNeeds();
    var insn := HiddenRead()[0].insns[1];
    assert Read(insn, PointsToTwo(), e.env)[2] != Read(insn, PointsToTwo(), f.env)[2];
  }

  // ---------- nothing is killed twice ----------

  /** An instruction, and the branch taken when it is the last of its block. */
  datatype Move = Move(b: nat, k: nat, i: nat)

  ghost predicate ValidMove(flow: Flow, move: Move) {
    && move.b < |flow| && move.k < |flow[move.b].script|
    && (Branches(flow[move.b], move.k) ==> move.i < |flow[move.b].targets|)
  }

  ghost predicate Follows(flow: Flow, move: Move, next: Move)
    requires ValidMove(flow, move)
  {
    if Branches(flow[move.b], move.k) then next.b == flow[move.b].targets[move.i] && next.k == 0
    else next.b == move.b && next.k == move.k + 1
  }

  ghost predicate Walk(flow: Flow, walk: seq<Move>) {
    && (forall j :: 0 <= j < |walk| ==> ValidMove(flow, walk[j]))
    && forall j :: 0 < j < |walk| ==> Follows(flow, walk[j - 1], walk[j])
  }

  /** Killed by the instruction itself, or on the branch it takes. */
  ghost predicate KilledAt(flow: Flow, plan: seq<Kills>, move: Move, onBranch: bool, v: Uid)
    requires ValidMove(flow, move) && |plan| == |flow| && Fits(flow[move.b], plan[move.b])
  {
    if onBranch then Branches(flow[move.b], move.k) && v in plan[move.b].killPerTarget[move.i]
    else v in plan[move.b].varsToKill[move.k]
  }

  ghost predicate Touches(flow: Flow, move: Move, v: Uid)
    requires ValidMove(flow, move)
  {
    v in Mentions(flow[move.b].script[move.k])
  }

  ghost predicate DeadAfter(body: Body, gen: Solution, k: nat, v: Uid)
    requires InRange(body.targets, |gen|) && k < |body.script|
  {
    v !in LiveFrom(body.script, OutLive(body, gen), k + 1)
  }

  /** Not needed where the move leads to. */
  ghost predicate DeadBeyond(body: Body, gen: Solution, k: nat, i: nat, v: Uid)
    requires InRange(body.targets, |gen|) && k < |body.script| && (Branches(body, k) ==> i < |body.targets|)
  {
    if Branches(body, k) then v !in gen[body.targets[i]] else DeadAfter(body, gen, k, v)
  }

  lemma DeadAfterIsBeyond(body: Body, gen: Solution, k: nat, i: nat, v: Uid)
    requires InRange(body.targets, |gen|) && k < |body.script| && (Branches(body, k) ==> i < |body.targets|)
    requires DeadAfter(body, gen, k, v)
    ensures DeadBeyond(body, gen, k, i, v)
  {
    if Branches(body, k) {
      assert body.targets[i] in body.targets;
      EndLive(body.script, OutLive(body, gen));
    }
  }

  /** An instruction's own kill is of something it touches that is dead after it; a branch's kill is of something that
      is not dead after the instruction, only beyond the branch. */
  lemma KillMeansDead(body: Body, gen: Solution, kills: Kills, k: nat, i: nat, onBranch: bool, v: Uid)
    requires InRange(body.targets, |gen|) && BlockKills(body, gen, kills)
    requires k < |body.script| && (Branches(body, k) ==> i < |body.targets|)
    requires if onBranch then Branches(body, k) && v in kills.killPerTarget[i] else v in kills.varsToKill[k]
    ensures DeadBeyond(body, gen, k, i, v)
    ensures
      if onBranch then !DeadAfter(body, gen, k, v) else v in Mentions(body.script[k]) && DeadAfter(body, gen, k, v)
  {
    var out := OutLive(body, gen);
    if onBranch {
      EndLive(body.script, out);
      assert EdgeKills(out, gen[body.targets[i]], Mentions(TailEvents(body.script, 0)), v);
    } else {
      DeadAfterIsBeyond(body, gen, k, i, v);
    }
  }

  lemma DeadOnEntry(flow: Flow, gen: Solution, move: Move, next: Move, v: Uid)
    requires ValidFlow(flow) && Solves(flow, gen) && ValidMove(flow, move) && ValidMove(flow, next)
    requires Follows(flow, move, next) && DeadBeyond(flow[move.b], gen, move.k, move.i, v)
    ensures v !in LiveFrom(flow[next.b].script, OutLive(flow[next.b], gen), next.k)
  {
    LiveAtBlockStart(flow, gen, next.b);
  }

  /** Dead stays dead while nothing touches it. */
  lemma DeadStep(body: Body, gen: Solution, k: nat, i: nat, v: Uid)
    requires InRange(body.targets, |gen|) && k < |body.script| && (Branches(body, k) ==> i < |body.targets|)
    requires v !in LiveFrom(body.script, OutLive(body, gen), k) && v !in Mentions(body.script[k])
    ensures DeadAfter(body, gen, k, v) && DeadBeyond(body, gen, k, i, v)
  {
    LiveStep(body.script, OutLive(body, gen), k);
    MentionsIsGenOrKill(body.script[k]);
    DeadAfterIsBeyond(body, gen, k, i, v);
  }

  /** Along an untouched stretch, dead all the way. */
  lemma {:induction false} DeadAlong(flow: Flow, gen: Solution, walk: seq<Move>, p: nat, q: nat, v: Uid)
    requires ValidFlow(flow) && Solves(flow, gen) && Walk(flow, walk) && p < q < |walk|
    requires DeadBeyond(flow[walk[p].b], gen, walk[p].k, walk[p].i, v)
    requires forall j :: p < j <= q ==> !Touches(flow, walk[j], v)
    ensures DeadAfter(flow[walk[q].b], gen, walk[q].k, v)
    ensures DeadBeyond(flow[walk[q].b], gen, walk[q].k, walk[q].i, v)
    decreases q
  {
    if q > p + 1 {
      DeadAlong(flow, gen, walk, p, q - 1, v);
    }
    assert Follows(flow, walk[q - 1], walk[q]) && !Touches(flow, walk[q], v);
    DeadOnEntry(flow, gen, walk[q - 1], walk[q], v);
    DeadStep(flow[walk[q].b], gen, walk[q].k, walk[q].i, v);
  }

  /** On every walk, between two kills of a variable some instruction touches it. */
  lemma NoDoubleKill(flow: Flow, gen: Solution, plan: seq<Kills>, walk: seq<Move>, p: nat, q: nat, e: bool, f: bool,
                     v: Uid)
    requires ValidFlow(flow) && Solves(flow, gen) && Planned(flow, gen, plan) && Shaped(flow, plan) && Walk(flow, walk)
    requires p <= q < |walk| && (p == q ==> !e && f)
    requires KilledAt(flow, plan, walk[p], e, v) && KilledAt(flow, plan, walk[q], f, v)
    ensures exists j :: p < j <= q && Touches(flow, walk[j], v)
  {
    KillMeansDead(flow[walk[p].b], gen, plan[walk[p].b], walk[p].k, walk[p].i, e, v);
    KillMeansDead(flow[walk[q].b], gen, plan[walk[q].b], walk[q].k, walk[q].i, f, v);
    if p < q && forall j :: p < j <= q ==> !Touches(flow, walk[j], v) {
      DeadAlong(flow, gen, walk, p, q, v);
    }
  }
}
