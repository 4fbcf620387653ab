/** What executing an instruction reads and writes, told by where its operands lead, and when the events that the killer
    sees in it tell the same. */
module Execution {
  import opened Collections
  import opened Liveness

  /** A variable, whole or a part of it, or anything else: globals, the heap. */
  datatype Place = Var(v: Uid, whole: bool) | Elsewhere

  // ---------- where operands lead ----------

  /** Where one accessor leads: a pointer that is a whole variable leads to its alias if that is known. */
  function Follow(p: Place, a: Accessor, aliases: Aliases): Place {
    match a
    case Deref => if p.Var? && p.whole && p.v in aliases then Var(aliases[p.v], true) else Elsewhere
    case DerefArray(_) => if p.Var? then Var(p.v, false) else Elsewhere
    case Item => if p.Var? then Var(p.v, false) else Elsewhere
    case Offset => if p.Var? then Var(p.v, false) else Elsewhere
    case Ref => p
  }

  function PlaceFrom(p: Place, acs: seq<Accessor>, aliases: Aliases): Place
    decreases |acs|
  {
    if acs == [] then p else PlaceFrom(Follow(p, acs[0], aliases), acs[1..], aliases)
  }

  /** The variables whose value says where the pointers on the way lead. */
  function LoadedFrom(p: Place, acs: seq<Accessor>, aliases: Aliases): set<Uid>
    decreases |acs|
  {
    if acs == [] then {}
    else
      (if acs[0].Deref? && p.Var? then {p.v} else {}) + LoadedFrom(Follow(p, acs[0], aliases), acs[1..], aliases)
  }

  function BaseOf(op: Operand): Place {
    if op.Other? then Elsewhere else Var(op.uid, true)
  }

  function PlaceOf(op: Operand, aliases: Aliases): Place {
    PlaceFrom(BaseOf(op), op.accessors, aliases)
  }

  /** What is read to find the place of an operand: pointers on the way, and array indices. */
  function Loaded(op: Operand, aliases: Aliases): set<Uid>
    decreases op, 1
  {
    LoadedFrom(BaseOf(op), op.accessors, aliases) + IndexNeeds(op.accessors, aliases)
  }

  function IndexNeeds(acs: seq<Accessor>, aliases: Aliases): set<Uid>
    decreases acs, 0
  {
    if acs == [] then {}
    else IndexNeed(acs[0], aliases) + IndexNeeds(acs[1..], aliases)
  }

  function IndexNeed(a: Accessor, aliases: Aliases): set<Uid>
    decreases a, 3
  {
    if a.DerefArray? then Needed(a.index, aliases) else {}
  }

  /** What the value of an operand depends on. */
  function Needed(op: Operand, aliases: Aliases): set<Uid>
    decreases op, 2
  {
    Loaded(op, aliases) + var p := PlaceOf(op, aliases); if p.Var? then {p.v} else {}
  }

  function NeededOfAll(ops: seq<Operand>, aliases: Aliases): set<Uid> {
    set op, v | op in ops && v in Needed(op, aliases) :: v
  }

  // ---------- what instructions do ----------

  /** The variables that an instruction reads: operations take their arguments and find the place of the result; a
      branch and a return take their operand. */
  function Reads(insn: Insn, aliases: Aliases): set<Uid>
    requires ValidInsn(insn)
  {
    match insn.code
    case Call => Loaded(insn.operands[0], aliases) + NeededOfAll(insn.operands[1..], aliases)
    case Unop => Loaded(insn.operands[0], aliases) + NeededOfAll(insn.operands[1..], aliases)
    case Binop => Loaded(insn.operands[0], aliases) + NeededOfAll(insn.operands[1..], aliases)
    case Clobber => Loaded(insn.operands[0], aliases)
    case Ret => Needed(insn.operands[0], aliases)
    case Cond => Needed(insn.operands[0], aliases)
    case Switch => Needed(insn.operands[0], aliases)
    case BuiltInCall => {}
    case Jmp => {}
    case Nop => {}
    case Abort => {}
    case Label => {}
  }

  /** The place that an instruction writes. */
  function Target(insn: Insn, aliases: Aliases): Place
    requires ValidInsn(insn)
  {
    match insn.code
    case Call => PlaceOf(insn.operands[0], aliases)
    case Unop => PlaceOf(insn.operands[0], aliases)
    case Binop => PlaceOf(insn.operands[0], aliases)
    case Clobber => PlaceOf(insn.operands[0], aliases)
    case _ => Elsewhere
  }

  // ---------- access paths of which the killer sees the truth ----------

  /** A path without what takes addresses. */
  function Bare(acs: seq<Accessor>): seq<Accessor> {
    if acs == [] then [] else (if acs[0].Ref? then [] else [acs[0]]) + Bare(acs[1..])
  }

  predicate Pointers(acs: seq<Accessor>) {
    exists a :: a in acs && a.Deref?
  }

  /** Of a pointer with a known alias: a source that is dereferenced first selects no field then, and is not
      dereferenced again at once; a destination is the target of the pointer as a whole, or is reached by selecting a
      field and by no second pointer, or by no array index nor pointer at all. */
  predicate PlainPath(acs: seq<Accessor>, dst: bool) {
    var s := Bare(acs);
    if !dst then s != [] && s[0].Deref? ==> !HasField(s) && !(|s| > 1 && s[1].Deref?)
    else !HasDeref(s) || s == [Deref] || (HasField(s) && !(s[0].Deref? && Pointers(s[1..])))
  }

  predicate Plain(op: Operand, aliases: Aliases, dst: bool)
    decreases op, 1
  {
    && (op.Local? && op.uid in aliases ==> PlainPath(op.accessors, dst))
    && PlainIndices(op.accessors, aliases)
  }

  predicate PlainIndices(acs: seq<Accessor>, aliases: Aliases)
    decreases acs, 0
  {
    acs == [] || (PlainIndex(acs[0], aliases) && PlainIndices(acs[1..], aliases))
  }

  predicate PlainIndex(a: Accessor, aliases: Aliases)
    decreases a, 2
  {
    a.DerefArray? ==> Plain(a.index, aliases, false)
  }

  predicate PlainInsn(insn: Insn, aliases: Aliases) {
    forall i :: 0 <= i < |insn.operands| ==>
      Plain(insn.operands[i], aliases, i == 0 && insn.code in {Call, Unop, Binop, Clobber})
  }

  ghost predicate PlainCfg(cfg: Cfg, aliases: Aliases) {
    forall b, k :: 0 <= b < |cfg| && 0 <= k < |cfg[b].insns| ==> PlainInsn(cfg[b].insns[k], aliases)
  }

  // ---------- places ----------

  lemma {:induction false} BareLeads(p: Place, acs: seq<Accessor>, aliases: Aliases)
    ensures PlaceFrom(p, Bare(acs), aliases) == PlaceFrom(p, acs, aliases)
    ensures LoadedFrom(p, Bare(acs), aliases) == LoadedFrom(p, acs, aliases)
    decreases acs
  {
    if acs != [] {
      BareLeads(Follow(p, acs[0], aliases), acs[1..], aliases);
      if acs[0].Ref? {
        assert Bare(acs) == Bare(acs[1..]);
      } else {
        assert Bare(acs)[1..] == Bare(acs[1..]) && Bare(acs)[0] == acs[0];
      }
    }
  }

  lemma {:induction false} BareHas(acs: seq<Accessor>, a: Accessor)
    ensures a in Bare(acs) <==> a in acs && !a.Ref?
    decreases acs
  {
    if acs != [] {
      BareHas(acs[1..], a);
    }
  }

  lemma BareTells(acs: seq<Accessor>)
    ensures HasField(Bare(acs)) == HasField(acs) && HasDeref(Bare(acs)) == HasDeref(acs)
    ensures forall a :: a in Bare(acs) ==> !a.Ref?
  {
    forall a
      ensures a in Bare(acs) <==> a in acs && !a.Ref?
    {
      BareHas(acs, a);
    }
  }

  /** From elsewhere, nothing more. */
  lemma {:induction false} FromElsewhere(acs: seq<Accessor>, aliases: Aliases)
    ensures PlaceFrom(Elsewhere, acs, aliases) == Elsewhere && LoadedFrom(Elsewhere, acs, aliases) == {}
    decreases acs
  {
    if acs != [] {
      FromElsewhere(acs[1..], aliases);
    }
  }

  /** From a part of a variable, only that variable. */
  lemma {:induction false} FromPart(v: Uid, acs: seq<Accessor>, aliases: Aliases)
    ensures PlaceFrom(Var(v, false), acs, aliases) == if Pointers(acs) then Elsewhere else Var(v, false)
    ensures LoadedFrom(Var(v, false), acs, aliases) == if Pointers(acs) then {v} else {}
    decreases acs
  {
    if acs != [] {
      FromElsewhere(acs[1..], aliases);
      FromPart(v, acs[1..], aliases);
      assert Pointers(acs) <==> acs[0].Deref? || Pointers(acs[1..]);
    }
  }

  /** From a whole variable by something other than a pointer. */
  lemma FromWhole(v: Uid, s: seq<Accessor>, aliases: Aliases)
    requires s != [] && !s[0].Deref? && !s[0].Ref?
    ensures PlaceFrom(Var(v, true), s, aliases) == if Pointers(s) then Elsewhere else Var(v, false)
    ensures LoadedFrom(Var(v, true), s, aliases) == if Pointers(s) then {v} else {}
  {
    FromPart(v, s[1..], aliases);
    assert Pointers(s) <==> Pointers(s[1..]);
  }

  /** From a pointer without a known alias. */
  lemma FromUnknown(v: Uid, s: seq<Accessor>, aliases: Aliases)
    requires v !in aliases && forall a :: a in s ==> !a.Ref?
    ensures PlaceFrom(Var(v, true), s, aliases) ==
      if Pointers(s) then Elsewhere else Var(v, s == [])
    ensures LoadedFrom(Var(v, true), s, aliases) == if Pointers(s) then {v} else {}
  {
    if s != [] {
      if s[0].Deref? {
        FromElsewhere(s[1..], aliases);
      } else {
        FromWhole(v, s, aliases);
      }
    }
  }

  /** From a pointer whose alias is known, by one that is not followed by a second pointer at once. */
  lemma FromKnown(v: Uid, s: seq<Accessor>, aliases: Aliases)
    requires v in aliases && s != [] && s[0].Deref? && !(|s| > 1 && s[1].Deref?) && forall a :: a in s ==> !a.Ref?
    ensures PlaceFrom(Var(v, true), s, aliases) ==
      if Pointers(s[1..]) then Elsewhere else Var(aliases[v], |s| == 1)
    ensures LoadedFrom(Var(v, true), s, aliases) == {v} + if Pointers(s[1..]) then {aliases[v]} else {}
  {
    if |s| > 1 {
      assert s[1..][0] == s[1];
      FromWhole(aliases[v], s[1..], aliases);
    }
  }

  // ---------- what the events tell ----------

  function Uses(es: seq<Event>): set<Uid> {
    set e | e in es && e.Use? :: e.v
  }

  lemma UsesJoin(es: seq<Event>, fs: seq<Event>)
    ensures Uses(es + fs) == Uses(es) + Uses(fs)
    ensures Kill(es + fs) == Kill(es) + Kill(fs)
  {}

  /** Without overwriting, whatever is used counts. */
  lemma {:induction false} NoneKilled(es: seq<Event>)
    requires Kill(es) == {}
    ensures Gen(es) == Uses(es)
    decreases |es|
  {
    if es != [] {
      var n := |es| - 1;
      assert es == es[..n] + [es[n]];
      UsesJoin(es[..n], [es[n]]);
      NoneKilled(es[..n]);
      assert Uses([es[n]]) == if es[n].Use? then {es[n].v} else {};
    }
  }

  /** A source overwrites nothing. */
  lemma {:induction false} SourceKills(op: Operand, aliases: Aliases)
    ensures Kill(OperandEvents(op, aliases, false)) == {}
    decreases op, 1
  {
    IndicesKill(op.accessors, aliases);
  }

  lemma {:induction false} IndicesKill(acs: seq<Accessor>, aliases: Aliases)
    ensures Kill(IndexEvents(acs, aliases)) == {}
    decreases acs, 0
  {
    if acs != [] {
      var n := |acs| - 1;
      IndicesKill(acs[..n], aliases);
      IndexKills(acs[n], aliases);
    }
  }

  lemma {:induction false} IndexKills(a: Accessor, aliases: Aliases)
    ensures Kill(AccessorEvents(a, aliases)) == {}
    decreases a, 2
  {
    if a.DerefArray? {
      SourceKills(a.index, aliases);
    }
  }

  /** What the indices on a path need is used, and nothing else but aliases. */
  lemma {:induction false} IndicesUsed(acs: seq<Accessor>, aliases: Aliases)
    requires PlainIndices(acs, aliases)
    ensures IndexNeeds(acs, aliases) <= Uses(IndexEvents(acs, aliases)) <= IndexNeeds(acs, aliases) + aliases.Values
    decreases acs, 0
  {
    if acs != [] {
      var n := |acs| - 1;
      IndexSplit(acs, aliases);
      IndicesUsed(acs[..n], aliases);
      IndexUsed(acs[n], aliases);
      UsesJoin(IndexEvents(acs[..n], aliases), AccessorEvents(acs[n], aliases));
    }
  }

  lemma {:induction false} IndexSplit(acs: seq<Accessor>, aliases: Aliases)
    requires acs != []
    ensures
      var n := |acs| - 1;
      && IndexNeeds(acs, aliases) == IndexNeeds(acs[..n], aliases) + IndexNeed(acs[n], aliases)
      && (PlainIndices(acs, aliases) <==> PlainIndices(acs[..n], aliases) && PlainIndex(acs[n], aliases))
    decreases |acs|
  {
    var n := |acs| - 1;
    if n > 0 {
      IndexSplit(acs[1..], aliases);
      assert acs[1..][..n - 1] == acs[..n][1..];
    }
  }

  lemma {:induction false} IndexUsed(a: Accessor, aliases: Aliases)
    requires PlainIndex(a, aliases)
    ensures
      IndexNeed(a, aliases) <= Uses(AccessorEvents(a, aliases)) <= IndexNeed(a, aliases) + aliases.Values
    decreases a, 2
  {
    if a.DerefArray? {
      SourceUsed(a.index, aliases);
    }
  }

  lemma {:induction false} SourceUsed(op: Operand, aliases: Aliases)
    requires Plain(op, aliases, false)
    ensures
      Needed(op, aliases) <= Uses(OperandEvents(op, aliases, false)) <= Needed(op, aliases) + aliases.Values
    decreases op, 1
  {
    IndicesUsed(op.accessors, aliases);
    UsesJoin(IndexEvents(op.accessors, aliases), BaseEvents(op, aliases, false));
    BaseUsed(op, aliases);
  }

  /** What the base of a source is needed for. */
  function BaseNeeds(op: Operand, aliases: Aliases): set<Uid> {
    LoadedFrom(BaseOf(op), op.accessors, aliases) + var p := PlaceOf(op, aliases); if p.Var? then {p.v} else {}
  }

  lemma BaseUsed(op: Operand, aliases: Aliases)
    requires op.Local? && op.uid in aliases ==> PlainPath(op.accessors, false)
    ensures BaseNeeds(op, aliases) <= Uses(BaseEvents(op, aliases, false)) <= BaseNeeds(op, aliases) + aliases.Values
  {
    if op.Other? {
      FromElsewhere(op.accessors, aliases);
    } else {
      hide BaseEvents, PlaceFrom, LoadedFrom, Bare;
      var s := Bare(op.accessors);
      BareLeads(BaseOf(op), op.accessors, aliases);
      BareTells(op.accessors);
      SourceBase(op, aliases);
      if op.uid !in aliases {
        FromUnknown(op.uid, s, aliases);
      } else if s != [] && s[0].Deref? {
        FromKnown(op.uid, s, aliases);
        assert s[0] in s;
      } else if s != [] {
        assert s[0] in s;
        FromWhole(op.uid, s, aliases);
      } else {
        NowhereElse(op.uid, aliases);
      }
    }
  }

  lemma NowhereElse(v: Uid, aliases: Aliases)
    ensures PlaceFrom(Var(v, true), [], aliases) == Var(v, true) && LoadedFrom(Var(v, true), [], aliases) == {}
  {}

  /** The events of the base of a source. */
  lemma SourceBase(op: Operand, aliases: Aliases)
    requires op.Local?
    ensures
      var deref, field := HasDeref(op.accessors), HasField(op.accessors);
      Uses(BaseEvents(op, aliases, false)) ==
        {op.uid} + if deref && !field && op.uid in aliases then {aliases[op.uid]} else {}
  {
    var more := if HasDeref(op.accessors) && !HasField(op.accessors) && op.uid in aliases then [Use(aliases[op.uid])]
      else [];
    assert BaseEvents(op, aliases, false) == [Use(op.uid)] + more;
    UsesJoin([Use(op.uid)], more);
  }

  /** The variable that a place is the whole of. */
  function Wholly(p: Place): set<Uid> {
    if p.Var? && p.whole then {p.v} else {}
  }

  /** The variable that a place is a part of. */
  function Partly(p: Place): set<Uid> {
    if p.Var? && !p.whole then {p.v} else {}
  }

  lemma BaseWritten(op: Operand, aliases: Aliases)
    requires op.Local? && op.uid in aliases ==> PlainPath(op.accessors, true)
    ensures
      var es := BaseEvents(op, aliases, true);
      && LoadedFrom(BaseOf(op), op.accessors, aliases) <= Gen(es)
      && Gen(es) <= LoadedFrom(BaseOf(op), op.accessors, aliases) + Partly(PlaceOf(op, aliases))
      && Kill(es) == Wholly(PlaceOf(op, aliases))
  {
    if op.Other? {
      FromElsewhere(op.accessors, aliases);
    } else {
      var s := Bare(op.accessors);
      BareLeads(BaseOf(op), op.accessors, aliases);
      BareTells(op.accessors);
      DestinationEvents(op, aliases);
      if op.uid !in aliases {
        FromUnknown(op.uid, s, aliases);
        PathKinds(s);
      } else if s != [] && s[0].Deref? {
        assert s[0] in s;
        SecondPointer(s);
        FromKnown(op.uid, s, aliases);
        SecondPart(s);
      } else if s != [] {
        FromWhole(op.uid, s, aliases);
        PathKinds(s);
      }
    }
  }

  /** A path that is not empty selects a part or follows a pointer. */
  lemma PathKinds(s: seq<Accessor>)
    requires forall a :: a in s ==> !a.Ref?
    ensures s != [] ==> HasField(s) || HasDeref(s)
    ensures Pointers(s) ==> HasDeref(s)
  {
    if s != [] {
      assert s[0] in s;
    }
  }

  lemma SecondPointer(s: seq<Accessor>)
    ensures |s| > 1 && s[1].Deref? ==> Pointers(s[1..])
  {
    assert |s| > 1 ==> s[1..][0] == s[1];
  }

  lemma SecondPart(s: seq<Accessor>)
    requires s != [] && s[0].Deref?
    ensures HasField(s) ==> |s| > 1
  {}

  /** The events of the base of a destination. */
  lemma DestinationEvents(op: Operand, aliases: Aliases)
    requires op.Local?
    ensures
      var es, deref, field := BaseEvents(op, aliases, true), HasDeref(op.accessors), HasField(op.accessors);
      && Gen(es) == (if deref then {op.uid} else {})
      && Kill(es) == (if !deref then if field then {} else {op.uid}
                      else if !field && op.uid in aliases then {aliases[op.uid]} else {})
  {
    var es := BaseEvents(op, aliases, true);
    GenOne(Use(op.uid));
    GenOne(Def(op.uid));
    if HasDeref(op.accessors) && !HasField(op.accessors) && op.uid in aliases {
      var d := Def(aliases[op.uid]);
      GenOne(d);
      assert es == [Use(op.uid)] + [d];
      GenAppend([Use(op.uid)], [d]);
    } else {
      assert es == VarEvents(op.uid, !HasDeref(op.accessors), HasField(op.accessors)) + [];
    }
  }

  lemma GenOne(e: Event)
    ensures Gen([e]) == (if e.Use? then {e.v} else {}) && Kill([e]) == (if e.Def? then {e.v} else {})
  {
    assert [e][..0] == [];
  }

  lemma DestinationWritten(op: Operand, aliases: Aliases)
    requires Plain(op, aliases, true)
    ensures
      var es := OperandEvents(op, aliases, true);
      && Loaded(op, aliases) <= Gen(es) <= Loaded(op, aliases) + Partly(PlaceOf(op, aliases)) + aliases.Values
      && Kill(es) == Wholly(PlaceOf(op, aliases))
  {
    IndicesUsed(op.accessors, aliases);
    IndicesKill(op.accessors, aliases);
    NoneKilled(IndexEvents(op.accessors, aliases));
    GenAppend(IndexEvents(op.accessors, aliases), BaseEvents(op, aliases, true));
    BaseWritten(op, aliases);
  }

  /** The arguments of an operation, from the `n`th on. */
  lemma {:induction false} ArgumentsUsed(ops: seq<Operand>, aliases: Aliases, n: nat)
    requires 0 < n <= |ops| && forall i :: n <= i < |ops| ==> Plain(ops[i], aliases, false)
    ensures
      var es, needed := OperandsEvents(ops, aliases, n), NeededOfAll(ops[n..], aliases);
      Kill(es) == {} && needed <= Gen(es) <= needed + aliases.Values
    decreases |ops| - n
  {
    hide Plain, OperandEvents, Needed, Gen, Kill;
    if n < |ops| {
      ArgumentsUsed(ops, aliases, n + 1);
      SourceTells(ops[n], aliases);
      GenAppend(OperandsEvents(ops, aliases, n + 1), OperandEvents(ops[n], aliases, false));
      assert ops[n..] == [ops[n]] + ops[n + 1..];
    } else {
      NoEvents();
    }
  }

  /** Of an instruction whose operands are plain, the events tell the truth: it reads nothing but what they use before
      it is overwritten, and what they overwrite is just what it overwrites as a whole.  What they use beyond that is
      known aliases, and variables of which a part is written. */
  lemma EventsTell(insn: Insn, aliases: Aliases)
    requires ValidInsn(insn) && PlainInsn(insn, aliases)
    ensures
      var es, p := InsnEvents(insn, aliases), Target(insn, aliases);
      && Reads(insn, aliases) <= Gen(es)
      && Gen(es) <= Reads(insn, aliases) + Partly(p) + aliases.Values
      && Kill(es) == Wholly(p)
  {
    hide Plain, OperandEvents, Loaded, Needed, Gen, Kill, PlaceOf;
    var ops := insn.operands;
    NoEvents();
    match insn.code {
      case Call => OperationTells(ops, aliases);
      case Unop => OperationTells(ops, aliases);
      case Binop => OperationTells(ops, aliases);
      case Clobber => DestinationWritten(ops[0], aliases);
      case Ret => SourceTells(ops[0], aliases);
      case Cond => SourceTells(ops[0], aliases);
      case Switch => SourceTells(ops[0], aliases);
      case _ =>
    }
  }

  lemma NoEvents()
    ensures Gen([]) == {} && Kill([]) == {}
  {}

  lemma SourceTells(op: Operand, aliases: Aliases)
    requires Plain(op, aliases, false)
    ensures
      var es := OperandEvents(op, aliases, false);
      && Needed(op, aliases) <= Gen(es) <= Needed(op, aliases) + aliases.Values && Kill(es) == {}
  {
    SourceKills(op, aliases);
    NoneKilled(OperandEvents(op, aliases, false));
    SourceUsed(op, aliases);
  }

  lemma OperationTells(ops: seq<Operand>, aliases: Aliases)
    requires ops != [] && forall i :: 0 <= i < |ops| ==> Plain(ops[i], aliases, i == 0)
    ensures
      var es, needed := OperandsEvents(ops, aliases, 0), Loaded(ops[0], aliases) + NeededOfAll(ops[1..], aliases);
      && needed <= Gen(es) <= needed + Partly(PlaceOf(ops[0], aliases)) + aliases.Values
      && Kill(es) == Wholly(PlaceOf(ops[0], aliases))
  {
    hide Plain, OperandEvents, Loaded, Needed, Gen, Kill, PlaceOf, NeededOfAll;
    ArgumentsUsed(ops, aliases, 1);
    DestinationWritten(ops[0], aliases);
    GenAppend(OperandsEvents(ops, aliases, 1), OperandEvents(ops[0], aliases, true));
  }

  // ---------- the condition on paths is exact ----------

  /** What is read is used, and only what is overwritten as a whole counts as such. */
  ghost predicate TellsTruth(op: Operand, aliases: Aliases, dst: bool) {
    var es := OperandEvents(op, aliases, dst);
    if dst then Loaded(op, aliases) <= Gen(es) && Kill(es) <= Wholly(PlaceOf(op, aliases))
    else Needed(op, aliases) <= Gen(es) && Kill(es) == {}
  }

  /** Array indices are constants. */
  predicate SimpleIndices(acs: seq<Accessor>) {
    forall a :: a in acs && a.DerefArray? ==> a.index == Other([])
  }

  lemma {:induction false} SimpleArePlain(acs: seq<Accessor>, aliases: Aliases)
    requires SimpleIndices(acs)
    ensures PlainIndices(acs, aliases) && IndexNeeds(acs, aliases) == {}
    decreases acs
  {
    if acs != [] {
      assert acs[0] in acs;
      SimpleArePlain(acs[1..], aliases);
    }
  }

  lemma {:induction false} SimpleEvents(acs: seq<Accessor>, aliases: Aliases)
    requires SimpleIndices(acs)
    ensures IndexEvents(acs, aliases) == []
    decreases acs
  {
    if acs != [] {
      SimpleEvents(acs[..|acs| - 1], aliases);
      assert acs[|acs| - 1] in acs;
    }
  }

  /** A path from a whole variable needs that variable, if only for where it leads. */
  lemma WholeNeeded(v: Uid, s: seq<Accessor>, aliases: Aliases)
    requires forall a :: a in s ==> !a.Ref?
    ensures v in LoadedFrom(Var(v, true), s, aliases) ||
      PlaceFrom(Var(v, true), s, aliases) in {Var(v, true), Var(v, false)}
    ensures Pointers(s) ==> v in LoadedFrom(Var(v, true), s, aliases)
    ensures PlaceFrom(Var(v, true), s, aliases) == Var(v, true) ==> s == [] || s[0].Deref?
  {
    if s != [] && !s[0].Deref? {
      assert s[0] in s;
      FromWhole(v, s, aliases);
    }
  }

  /** Through the pointer 0 to the variable 1, and from there, if that is a pointer, to the variable 2. */
  function ChainOfTwo(): Aliases {
    map[0 := 1, 1 := 2]
  }

  /** The events of a source with constant indices. */
  lemma SourceEvents(acs: seq<Accessor>)
    requires SimpleIndices(acs)
    ensures Gen(OperandEvents(Local(0, acs), ChainOfTwo(), false)) ==
      {0} + if HasDeref(acs) && !HasField(acs) then {1} else {}
  {
    var op := Local(0, acs);
    var more := if HasDeref(acs) && !HasField(acs) then [Use(1)] else [];
    SimpleEvents(acs, ChainOfTwo());
    assert OperandEvents(op, ChainOfTwo(), false) == [Use(0)] + more;
    GenOne(Use(0));
    GenOne(Use(1));
    NoEvents();
    GenAppend([Use(0)], more);
  }

  /** The variable at the end of the chain is needed. */
  lemma EndNeeded(s: seq<Accessor>)
    requires s != [] && s[0].Deref? && forall a :: a in s ==> !a.Ref?
    ensures
      var p := PlaceFrom(Var(0, true), s, ChainOfTwo());
      var needed := LoadedFrom(Var(0, true), s, ChainOfTwo()) + if p.Var? then {p.v} else {};
      1 in needed && (|s| > 1 && s[1].Deref? ==> 2 in needed)
  {
    var rest := s[1..];
    WholeNeeded(1, rest, ChainOfTwo());
    if |s| > 1 && s[1].Deref? {
      WholeNeeded(2, rest[1..], ChainOfTwo());
    }
  }

  lemma HiddenSource(acs: seq<Accessor>)
    requires SimpleIndices(acs) && !PlainPath(acs, false)
    ensures !TellsTruth(Local(0, acs), ChainOfTwo(), false)
  {
    hide OperandEvents, Gen;
    var s := Bare(acs);
    SourceEvents(acs);
    BareLeads(Var(0, true), acs, ChainOfTwo());
    BareTells(acs);
    EndNeeded(s);
    assert s[0] in s && HasDeref(s);
    NeededIs(acs);
  }

  lemma NeededIs(acs: seq<Accessor>)
    requires SimpleIndices(acs)
    ensures
      var p := PlaceFrom(Var(0, true), acs, ChainOfTwo());
      Needed(Local(0, acs), ChainOfTwo()) ==
        LoadedFrom(Var(0, true), acs, ChainOfTwo()) + if p.Var? then {p.v} else {}
  {
    SimpleArePlain(acs, ChainOfTwo());
  }

  lemma HiddenDestination(acs: seq<Accessor>)
    requires SimpleIndices(acs) && !PlainPath(acs, true)
    ensures !TellsTruth(Local(0, acs), ChainOfTwo(), true)
  {
    var op, aliases, s := Local(0, acs), ChainOfTwo(), Bare(acs);
    SimpleEvents(acs, aliases);
    BareLeads(BaseOf(op), acs, aliases);
    BareTells(acs);
    var es := BaseEvents(op, aliases, true);
    assert OperandEvents(op, aliases, true) == es;
    DestinationEvents(op, aliases);
    if HasField(s) {
      WholeNeeded(1, s[1..], aliases);
      assert 1 in Loaded(op, aliases) && 1 !in Gen(es);
    } else {
      NotWholly(s);
      assert 1 in Kill(es);
    }
  }

  lemma NotWholly(s: seq<Accessor>)
    requires s != [] && s != [Deref] && forall a :: a in s ==> !a.Ref?
    ensures PlaceFrom(Var(0, true), s, ChainOfTwo()) != Var(1, true)
  {
    var aliases := ChainOfTwo();
    if !s[0].Deref? {
      assert s[0] in s;
      FromWhole(0, s, aliases);
    } else if !s[1].Deref? {
      assert s[1] in s;
      FromWhole(1, s[1..], aliases);
    } else {
      FromUnknown(2, s[1..][1..], aliases);
    }
  }

  /** Along paths with constant indices the events tell the truth, whatever aliases are known, if and only if the path
      is plain. */
  lemma PathTellsIff(acs: seq<Accessor>, dst: bool)
    requires SimpleIndices(acs)
    ensures PlainPath(acs, dst) <==> forall v, aliases :: TellsTruth(Local(v, acs), aliases, dst)
  {
    hide OperandEvents, Loaded, Needed, PlainPath, Gen, Kill, PlaceOf;
    if PlainPath(acs, dst) {
      forall v, aliases
        ensures TellsTruth(Local(v, acs), aliases, dst)
      {
        SimpleArePlain(acs, aliases);
        if dst {
          DestinationWritten(Local(v, acs), aliases);
        } else {
          SourceTells(Local(v, acs), aliases);
        }
      }
    } else if dst {
      HiddenDestination(acs);
    } else {
      HiddenSource(acs);
    }
  }
}
