/** Where a switch leads: by its cases, by the comparisons made of it, and by the table that is stored of it. */
module SwitchMeaning {
  import opened Collections
  import opened Labels
  import opened SwitchEvents
  import opened Unswitch
  import opened SwitchSandwich

  /** The parts of a switch between its opening and its closing. */
  ghost predicate AreCases(cases: Stream) {
    forall i :: 0 <= i < |cases| ==> cases[i].SwitchCase? || cases[i].SwitchDefault?
  }

  /** Some case has `value` in its range. */
  ghost predicate Matches(e: Event, value: int) {
    e.SwitchCase? && e.lo <= value <= e.hi
  }

  /** The last default among the cases, or `start`. */
  function LastDefault(start: Label, cases: Stream): Label {
    if cases == [] then start
    else if cases[|cases| - 1].SwitchDefault? then cases[|cases| - 1].name
    else LastDefault(start, cases[..|cases| - 1])
  }

  /** A switch on `value` leads to `l`: to the label of the first case whose range has the value, or else to the
      default, wherever that stood. */
  ghost predicate LeadsTo(cases: Stream, value: int, l: Label) {
    || (exists i :: 0 <= i < |cases| && Matches(cases[i], value) && cases[i].name == l &&
                    forall j :: 0 <= j < i ==> !Matches(cases[j], value))
    || ((forall i :: 0 <= i < |cases| ==> !Matches(cases[i], value)) && l == LastDefault("", cases))
  }

  // ---------- the values one by one ----------

  type Pairs = seq<(int, Label)>

  function RangePairs(lo: int, n: nat, name: Label): (r: Pairs)
    ensures |r| == n && forall i :: 0 <= i < n ==> r[i] == (lo + i, name)
  {
    seq(n, i => (lo + i, name))
  }

  function PairsOf(e: Event): Pairs {
    if e.SwitchCase? then RangePairs(e.lo, RangeSize(e.lo, e.hi), e.name) else []
  }

  function Flatten(cases: Stream): Pairs {
    if cases == [] then [] else Flatten(cases[..|cases| - 1]) + PairsOf(cases[|cases| - 1])
  }

  /** The label of the first pair with the value, or else `default`. */
  function FirstPair(ps: Pairs, value: int, default: Label): Label {
    if ps == [] then default else if ps[0].0 == value then ps[0].1 else FirstPair(ps[1..], value, default)
  }

  lemma {:induction false} FirstPairJoin(ps: Pairs, qs: Pairs, value: int, default: Label)
    ensures FirstPair(ps + qs, value, default) == FirstPair(ps, value, FirstPair(qs, value, default))
    decreases |ps|
  {
    if ps == [] {
      assert ps + qs == qs;
    } else {
      FirstPairJoin(ps[1..], qs, value, default);
      assert (ps + qs)[1..] == ps[1..] + qs;
    }
  }

  lemma {:induction false} RangeFirst(lo: int, n: nat, name: Label, value: int, default: Label)
    ensures FirstPair(RangePairs(lo, n, name), value, default) == if lo <= value < lo + n then name else default
    decreases n
  {
    var ps := RangePairs(lo, n, name);
    if n > 0 {
      RangeFirst(lo + 1, n - 1, name, value, default);
      assert ps[1..] == RangePairs(lo + 1, n - 1, name);
    }
  }

  /** What the values one by one lead to, with any label in place of the default. */
  lemma {:induction false} FlattenFirst(cases: Stream, value: int, default: Label)
    requires AreCases(cases)
    ensures FirstOrElse(cases, value, FirstPair(Flatten(cases), value, default), default)
    decreases |cases|
  {
    if cases != [] {
      var n := |cases| - 1;
      var before, e := cases[..n], cases[n];
      var rest := FirstPair(PairsOf(e), value, default);
      FlattenFirst(before, value, rest);
      FirstPairJoin(Flatten(before), PairsOf(e), value, default);
      if e.SwitchCase? {
        RangeFirst(e.lo, RangeSize(e.lo, e.hi), e.name, value, default);
      }
      FirstOrElseMore(before, e, value, FirstPair(Flatten(before), value, rest), rest, default);
      assert cases == before + [e];
    }
  }

  /** The first case that matches has label `l`, or none does and `l` is `default`. */
  ghost predicate FirstOrElse(cases: Stream, value: int, l: Label, default: Label) {
    || (l == default && forall i :: 0 <= i < |cases| ==> !Matches(cases[i], value))
    || exists i :: FirstMatching(cases, i, value, l)
  }

  lemma FirstOrElseMore(cases: Stream, e: Event, value: int, l: Label, rest: Label, default: Label)
    requires FirstOrElse(cases, value, l, rest)
    requires if Matches(e, value) then rest == e.name else rest == default
    ensures FirstOrElse(cases + [e], value, l, default)
  {
    var more := cases + [e];
    assert more[|cases|] == e && forall i :: 0 <= i < |cases| ==> more[i] == cases[i];
    if i :| FirstMatching(cases, i, value, l) {
      assert FirstMatching(more, i, value, l);
    } else if Matches(e, value) {
      assert FirstMatching(more, |cases|, value, l);
    }
  }

  ghost predicate FirstMatching(cases: Stream, i: int, value: int, l: Label) {
    && 0 <= i < |cases| && Matches(cases[i], value) && cases[i].name == l
    && forall j :: 0 <= j < i ==> !Matches(cases[j], value)
  }

  lemma FlattenLeads(cases: Stream, value: int)
    requires AreCases(cases)
    ensures LeadsTo(cases, value, FirstPair(Flatten(cases), value, LastDefault("", cases)))
  {
    FlattenFirst(cases, value, LastDefault("", cases));
  }

  /** A switch leads to one label only. */
  lemma LeadsToOne(cases: Stream, value: int, l: Label, k: Label)
    requires LeadsTo(cases, value, l) && LeadsTo(cases, value, k)
    ensures l == k
  {
  }

  // ---------- the comparisons ----------

  /** The comparisons with the first `n` pairs, in switch number `k`. */
  function Chain(src: nat, k: nat, ps: Pairs, n: nat): Stream
    requires n <= |ps|
  {
    if n == 0 then []
    else
      Chain(src, k, ps, n - 1) +
      [Compare(src, ps[n - 1].0), Cond(ps[n - 1].1, Aux(k, n)), BbOpen(Aux(k, n))]
  }

  lemma {:induction false} ChainAt(src: nat, k: nat, ps: Pairs, n: nat, i: nat)
    requires i < n <= |ps|
    ensures |Chain(src, k, ps, n)| == 3 * n
    ensures Chain(src, k, ps, n)[3 * i] == Compare(src, ps[i].0)
    ensures Chain(src, k, ps, n)[3 * i + 1] == Cond(ps[i].1, Aux(k, i + 1))
    ensures Chain(src, k, ps, n)[3 * i + 2] == BbOpen(Aux(k, i + 1))
    decreases n
  {
    hide Aux;
    if n > 1 {
      ChainAt(src, k, ps, n - 1, if i < n - 1 then i else 0);
    } else {
      assert Chain(src, k, ps, 0) == [];
    }
  }

  lemma {:induction false} ChainPrefix(src: nat, k: nat, ps: Pairs, qs: Pairs, n: nat)
    requires n <= |ps|
    ensures Chain(src, k, ps + qs, n) == Chain(src, k, ps, n)
    decreases n
  {
    if n > 0 {
      ChainPrefix(src, k, ps, qs, n - 1);
    }
  }

  /** A case's comparisons prolong the chain by its pairs. */
  lemma {:induction false} ChainGrows(src: nat, k: nat, ps: Pairs, lo: int, n: nat, name: Label, u: Unfolding)
    requires u.src == src && u.switches == k && u.cases == |ps|
    ensures Chain(src, k, ps + RangePairs(lo, n, name), |ps| + n) ==
      Chain(src, k, ps, |ps|) + Comparisons(u, lo, n, name)
    decreases n
  {
    hide Aux;
    var all := ps + RangePairs(lo, n, name);
    if n == 0 {
      assert all == ps;
    } else {
      ChainGrows(src, k, ps, lo, n - 1, name, u);
      assert all == ps + RangePairs(lo, n - 1, name) + [(lo + n - 1, name)];
      ChainPrefix(src, k, ps + RangePairs(lo, n - 1, name), [(lo + n - 1, name)], |ps| + n - 1);
      assert all[|ps| + n - 1] == (lo + n - 1, name);
    }
  }

  /** Unfolding the parts of a switch gives the chain of its values. */
  lemma {:induction false} UnfoldCases(u: Unfolding, cases: Stream)
    requires AreCases(cases) && u.cases == 0
    ensures Unfold(u, cases) == Chain(u.src, u.switches, Flatten(cases), |Flatten(cases)|)
    ensures NextAll(u, cases) == u.(cases := |Flatten(cases)|, default := LastDefault(u.default, cases))
    decreases |cases|
  {
    if cases != [] {
      var n := |cases| - 1;
      UnfoldCases(u, cases[..n]);
      UnfoldCase(u, cases[..n], cases[n]);
      assert cases == cases[..n] + [cases[n]];
    }
  }

  lemma UnfoldLast(u: Unfolding, es: Stream, e: Event)
    ensures Unfold(u, es + [e]) == Unfold(u, es) + Emitted(NextAll(u, es), e)
    ensures NextAll(u, es + [e]) == Next(NextAll(u, es), e)
  {
    assert (es + [e])[..|es|] == es;
  }

  lemma FlattenLast(cases: Stream, e: Event)
    ensures Flatten(cases + [e]) == Flatten(cases) + PairsOf(e)
    ensures forall start ::
      LastDefault(start, cases + [e]) == if e.SwitchDefault? then e.name else LastDefault(start, cases)
  {
    assert (cases + [e])[..|cases|] == cases;
  }

  lemma UnfoldCase(u: Unfolding, cases: Stream, e: Event)
    requires (e.SwitchCase? || e.SwitchDefault?) && u.cases == 0
    requires Unfold(u, cases) == Chain(u.src, u.switches, Flatten(cases), |Flatten(cases)|)
    requires NextAll(u, cases) == u.(cases := |Flatten(cases)|, default := LastDefault(u.default, cases))
    ensures Unfold(u, cases + [e]) == Chain(u.src, u.switches, Flatten(cases + [e]), |Flatten(cases + [e])|)
    ensures NextAll(u, cases + [e]) ==
      u.(cases := |Flatten(cases + [e])|, default := LastDefault(u.default, cases + [e]))
  {
    hide Chain, Comparisons, RangePairs, Unfold, NextAll, Flatten, Decimal;
    UnfoldLast(u, cases, e);
    FlattenLast(cases, e);
    match e {
      case SwitchCase(lo, hi, name) =>
        var n := RangeSize(lo, hi);
        assert |RangePairs(lo, n, name)| == n;
        ChainGrows(u.src, u.switches, Flatten(cases), lo, n, name, NextAll(u, cases));
      case SwitchDefault(_) =>
        assert Flatten(cases + [e]) == Flatten(cases);
        assert Unfold(u, cases) + [] == Unfold(u, cases);
    }
  }

  // ---------- running the comparisons ----------

  /** Where the block of a label starts, or the end of the stream. */
  function BlockAt(out: Stream, l: Label): (r: nat)
    ensures r <= |out| && (r < |out| ==> out[r] == BbOpen(l))
    ensures r == |out| ==> forall i :: 0 <= i < |out| ==> out[i] != BbOpen(l)
  {
    if out == [] then 0
    else if BlockAt(out[..|out| - 1], l) < |out| - 1 then BlockAt(out[..|out| - 1], l)
    else if out[|out| - 1] == BbOpen(l) then |out| - 1
    else |out|
  }

  /** The label of the first block left to outside of `out`, when the operand has `value` and
      the last comparison gave `flag`. */
  function RunAt(out: Stream, at: nat, src: nat, value: int, flag: bool, fuel: nat): Option<Label>
    decreases fuel, 0
  {
    if fuel == 0 || at >= |out| then None
    else
      match out[at]
      case Compare(s, cst) => if s == src then RunAt(out, at + 1, src, value, value == cst, fuel - 1) else None
      case BbOpen(_) => RunAt(out, at + 1, src, value, flag, fuel - 1)
      case Cond(t, f) => GoTo(out, if flag then t else f, src, value, flag, fuel - 1)
      case Jmp(l) => GoTo(out, l, src, value, flag, fuel - 1)
      case _ => None
  }

  function GoTo(out: Stream, l: Label, src: nat, value: int, flag: bool, fuel: nat): Option<Label>
    decreases fuel, 1
  {
    if BlockAt(out, l) < |out| then RunAt(out, BlockAt(out, l), src, value, flag, fuel) else Some(l)
  }

  /** The comparisons of a switch, and the jump to its default. */
  function WholeChain(src: nat, k: nat, ps: Pairs, default: Label): Stream {
    Chain(src, k, ps, |ps|) + [Jmp(default)]
  }

  ghost predicate UserPairs(ps: Pairs, default: Label) {
    IsUser(default) && forall i :: 0 <= i < |ps| ==> IsUser(ps[i].1)
  }

  lemma {:induction false} ChainLength(src: nat, k: nat, ps: Pairs, n: nat)
    requires n <= |ps|
    ensures |Chain(src, k, ps, n)| == 3 * n
  {
    if n > 0 {
      ChainLength(src, k, ps, n - 1);
    }
  }

  /** The only blocks of the chain are those it makes, each after its branch. */
  lemma ChainBlocks(src: nat, k: nat, ps: Pairs, default: Label, j: nat)
    requires j < |WholeChain(src, k, ps, default)| && WholeChain(src, k, ps, default)[j].BbOpen?
    ensures j % 3 == 2 && j / 3 < |ps| && WholeChain(src, k, ps, default)[j] == BbOpen(Aux(k, j / 3 + 1))
  {
    hide Aux;
    ChainLength(src, k, ps, |ps|);
    if j < 3 * |ps| {
      ChainAt(src, k, ps, |ps|, j / 3);
    }
  }

  lemma BlockOfAux(src: nat, k: nat, ps: Pairs, default: Label, i: nat)
    requires i < |ps|
    ensures BlockAt(WholeChain(src, k, ps, default), Aux(k, i + 1)) == 3 * i + 2
  {
    hide Aux;
    var out := WholeChain(src, k, ps, default);
    ChainLength(src, k, ps, |ps|);
    ChainAt(src, k, ps, |ps|, i);
    var r := BlockAt(out, Aux(k, i + 1));
    assert out[3 * i + 2] == BbOpen(Aux(k, i + 1));
    ChainBlocks(src, k, ps, default, r);
    AuxInjective(k, r / 3 + 1, k, i + 1);
  }

  lemma BlockOfUser(src: nat, k: nat, ps: Pairs, default: Label, l: Label)
    requires IsUser(l)
    ensures BlockAt(WholeChain(src, k, ps, default), l) == |WholeChain(src, k, ps, default)|
  {
    var out := WholeChain(src, k, ps, default);
    var r := BlockAt(out, l);
    if r < |out| {
      ChainBlocks(src, k, ps, default, r);
    }
  }

  /** A comparison and its branch. */
  lemma RunComparison(out: Stream, at: nat, src: nat, value: int, flag: bool, fuel: nat, cst: int, t: Label, f: Label)
    requires at + 1 < |out| && fuel >= 2 && out[at] == Compare(src, cst) && out[at + 1] == Cond(t, f)
    ensures RunAt(out, at, src, value, flag, fuel) ==
            GoTo(out, if value == cst then t else f, src, value, value == cst, fuel - 2)
  {
    hide BlockAt;
  }

  lemma GoToBlock(out: Stream, l: Label, src: nat, value: int, flag: bool, fuel: nat)
    requires BlockAt(out, l) < |out| && fuel > 0
    ensures GoTo(out, l, src, value, flag, fuel) == RunAt(out, BlockAt(out, l) + 1, src, value, flag, fuel - 1)
  {
  }

  /** From the `i`th comparison on, the chain leads where the remaining pairs do. */
  lemma {:induction false} ChainLeads(src: nat, k: nat, ps: Pairs, default: Label, i: nat, value: int, flag: bool,
                                      fuel: nat)
    requires UserPairs(ps, default) && i <= |ps| && fuel > 3 * (|ps| - i)
    ensures RunAt(WholeChain(src, k, ps, default), 3 * i, src, value, flag, fuel) ==
      Some(FirstPair(ps[i..], value, default))
    decreases |ps| - i
  {
    hide Aux, IsUser, Chain, BlockAt;
    var out := WholeChain(src, k, ps, default);
    ChainLength(src, k, ps, |ps|);
    if i == |ps| {
      assert out[3 * i] == Jmp(default);
      BlockOfUser(src, k, ps, default, default);
    } else {
      hide RunAt, GoTo;
      ChainAt(src, k, ps, |ps|, i);
      assert out[3 * i] == Compare(src, ps[i].0) && out[3 * i + 1] == Cond(ps[i].1, Aux(k, i + 1));
      RunComparison(out, 3 * i, src, value, flag, fuel, ps[i].0, ps[i].1, Aux(k, i + 1));
      assert ps[i..][1..] == ps[i + 1..];
      if value == ps[i].0 {
        BlockOfUser(src, k, ps, default, ps[i].1);
        LeavesChain(out, ps[i].1, src, value, true, fuel - 2);
      } else {
        BlockOfAux(src, k, ps, default, i);
        GoToBlock(out, Aux(k, i + 1), src, value, false, fuel - 2);
        ChainLeads(src, k, ps, default, i + 1, value, false, fuel - 3);
      }
    }
  }

  lemma LeavesChain(out: Stream, l: Label, src: nat, value: int, flag: bool, fuel: nat)
    requires BlockAt(out, l) == |out|
    ensures GoTo(out, l, src, value, flag, fuel) == Some(l)
  {
  }

  lemma UnfoldOne(u: Unfolding, e: Event)
    ensures Unfold(u, [e]) == Emitted(u, e) && NextAll(u, [e]) == Next(u, e)
  {
    hide Emitted, Next;
    assert [e][..0] == [];
    assert Unfold(u, []) == [] && NextAll(u, []) == u;
    assert [] + Emitted(u, e) == Emitted(u, e);
  }

  /** What a whole switch is unfolded to. */
  lemma UnfoldSwitch(u: Unfolding, src: nat, cases: Stream)
    requires AreCases(cases) && u.cases == 0 && u.default == "" && LastDefault("", cases) != ""
    ensures Unfold(u, [SwitchOpen(src)] + cases + [SwitchClose]) ==
            WholeChain(src, u.switches, Flatten(cases), LastDefault("", cases))
  {
    hide Chain, Flatten, Unfold, NextAll;
    var v := u.(src := src);
    UnfoldOne(u, SwitchOpen(src));
    UnfoldJoin(u, [SwitchOpen(src)], cases);
    UnfoldCases(v, cases);
    UnfoldJoin(u, [SwitchOpen(src)] + cases, [SwitchClose]);
    UnfoldOne(NextAll(v, cases), SwitchClose);
    assert [] + Unfold(v, cases) == Unfold(v, cases);
  }

  lemma {:induction false} UnfoldJoin(u: Unfolding, es: Stream, fs: Stream)
    ensures NextAll(u, es + fs) == NextAll(NextAll(u, es), fs)
    ensures Unfold(u, es + fs) == Unfold(u, es) + Unfold(NextAll(u, es), fs)
    decreases |fs|
  {
    hide Emitted, Next;
    if fs == [] {
      assert es + fs == es && Unfold(NextAll(u, es), fs) == [];
    } else {
      var n := |fs| - 1;
      UnfoldJoin(u, es, fs[..n]);
      assert (es + fs)[..|es + fs| - 1] == es + fs[..n];
      var x, y, z := Unfold(u, es), Unfold(NextAll(u, es), fs[..n]), Emitted(NextAll(u, es + fs[..n]), fs[n]);
      assert x + y + z == x + (y + z);
    }
  }

  /** Whatever the value, an unfolded switch leads where the switch does. */
  lemma UnfoldedSwitchLeadsTheSame(u: Unfolding, src: nat, cases: Stream, value: int, flag: bool)
    requires AreCases(cases) && UserStream(cases) && u.cases == 0 && u.default == "" && LastDefault("", cases) != ""
    ensures
      var out := Unfold(u, [SwitchOpen(src)] + cases + [SwitchClose]);
      var end := RunAt(out, 0, src, value, flag, |out| + 1);
      end.Some? && LeadsTo(cases, value, end.value)
  {
    hide Chain, RunAt, IsUser;
    var ps, default := Flatten(cases), LastDefault("", cases);
    UnfoldSwitch(u, src, cases);
    UserFlatten(cases);
    ChainLength(src, u.switches, ps, |ps|);
    ChainLeads(src, u.switches, ps, default, 0, value, flag, 3 * |ps| + 2);
    assert ps[0..] == ps;
    FlattenLeads(cases, value);
  }

  lemma {:induction false} UserFlatten(cases: Stream)
    requires AreCases(cases) && UserStream(cases)
    ensures forall i :: 0 <= i < |Flatten(cases)| ==> IsUser(Flatten(cases)[i].1)
    ensures LastDefault("", cases) != "" ==> IsUser(LastDefault("", cases))
    decreases |cases|
  {
    hide IsUser;
    if cases != [] {
      var e := cases[|cases| - 1];
      UserFlatten(cases[..|cases| - 1]);
      assert UserEvent(e) && e.name in Mentioned(e);
    }
  }

  // ---------- renaming does not matter ----------

  lemma RenamedOpens(m: Numbering, last: nat, e: Event, l: Label)
    requires Unique(m, last) && Mentioned(e) <= m.Keys && l in m
    ensures RenamedEvent(m, e) == BbOpen(Renamed(m, l)) <==> e == BbOpen(l)
  {
    hide Renamed;
    if e.BbOpen? && Renamed(m, e.name) == Renamed(m, l) {
      RenamedIsInjective(m, last, e.name, l);
    }
  }

  lemma {:induction false} RenamedBlockAt(m: Numbering, last: nat, out: Stream, l: Label)
    requires Unique(m, last) && Covers(m, out) && l in m
    ensures BlockAt(RenamedStream(m, out), Renamed(m, l)) == BlockAt(out, l)
    decreases |out|
  {
    hide Renamed, Unique, RenamedEvent;
    if out != [] {
      var n := |out| - 1;
      var r := RenamedStream(m, out);
      assert r[..n] == RenamedStream(m, out[..n]);
      RenamedBlockAt(m, last, out[..n], l);
      assert Mentioned(out[n]) <= m.Keys;
      RenamedOpens(m, last, out[n], l);
    }
  }

  ghost function RenamedOption(m: Numbering, l: Option<Label>): Option<Label> {
    if l.Some? then Some(Renamed(m, l.value)) else None
  }

  /** A renamed chain leads to the renamed label. */
  lemma {:induction false} RenamedRunAt(m: Numbering, last: nat, out: Stream, at: nat, src: nat, value: int, flag: bool,
                                        fuel: nat)
    requires Unique(m, last) && Covers(m, out)
    ensures RunAt(RenamedStream(m, out), at, src, value, flag, fuel) ==
      RenamedOption(m, RunAt(out, at, src, value, flag, fuel))
    decreases fuel, 0
  {
    hide Renamed, Unique;
    var r := RenamedStream(m, out);
    if fuel > 0 && at < |out| {
      assert r[at] == RenamedEvent(m, out[at]) && Mentioned(out[at]) <= m.Keys;
      hide RenamedStream, Covers;
      match out[at] {
        case Compare(_, cst) => RenamedRunAt(m, last, out, at + 1, src, value, value == cst, fuel - 1);
        case BbOpen(_) => RenamedRunAt(m, last, out, at + 1, src, value, flag, fuel - 1);
        case Cond(t, f) =>
          assert t in Mentioned(out[at]) && f in Mentioned(out[at]);
          RenamedGoTo(m, last, out, if flag then t else f, src, value, flag, fuel - 1);
        case Jmp(l) =>
          assert l in Mentioned(out[at]);
          RenamedGoTo(m, last, out, l, src, value, flag, fuel - 1);
        case _ =>
      }
    }
  }

  lemma {:induction false} RenamedGoTo(m: Numbering, last: nat, out: Stream, l: Label, src: nat, value: int, flag: bool,
                                       fuel: nat)
    requires Unique(m, last) && Covers(m, out) && l in m
    ensures GoTo(RenamedStream(m, out), Renamed(m, l), src, value, flag, fuel) ==
            RenamedOption(m, GoTo(out, l, src, value, flag, fuel))
    decreases fuel, 1
  {
    hide Renamed, Unique, RunAt;
    RenamedBlockAt(m, last, out, l);
    RenamedRunAt(m, last, out, BlockAt(out, l), src, value, flag, fuel);
  }

  // ---------- behind the three filters ----------

  /** Outside a switch nothing of one is left in the unfolding. */
  lemma {:induction false} BetweenSwitches(es: Stream)
    requires InOrder(Init, es) && After(Init, es) != InsnSwitch
    ensures NextAll(Start(), es).cases == 0 && NextAll(Start(), es).default == ""
    decreases |es|
  {
    if es != [] && !es[|es| - 1].SwitchClose? {
      BetweenSwitches(es[..|es| - 1]);
    }
  }

  lemma {:induction false} RenamedDefault(m: Numbering, cases: Stream)
    requires AreCases(cases) && Covers(m, cases) && Seen(cases)
    ensures LastDefault("", cases) in m
    ensures LastDefault("", RenamedStream(m, cases)) == Renamed(m, LastDefault("", cases)) != ""
    decreases |cases|
  {
    var e, before, r := cases[|cases| - 1], cases[..|cases| - 1], RenamedStream(m, cases);
    assert r[..|r| - 1] == RenamedStream(m, before);
    assert Mentioned(e) <= m.Keys;
    if e.SwitchDefault? {
      NotEmpty(m, e.name);
    } else {
      RenamedDefault(m, before);
    }
  }

  /** Renamed cases lead to the renamed label. */
  lemma RenamedLeads(m: Numbering, cases: Stream, value: int, l: Label)
    requires AreCases(cases) && Covers(m, cases) && Seen(cases) && LeadsTo(cases, value, l)
    ensures LeadsTo(RenamedStream(m, cases), value, Renamed(m, l)) && l in m
  {
    hide Renamed, Decimal, LastDefault, Seen;
    var r := RenamedStream(m, cases);
    forall i | 0 <= i < |cases|
      ensures Matches(r[i], value) <==> Matches(cases[i], value)
    {
      assert r[i] == RenamedEvent(m, cases[i]);
    }
    if i :| FirstMatching(cases, i, value, l) {
      assert Mentioned(cases[i]) <= m.Keys;
      assert FirstMatching(r, i, value, Renamed(m, l));
    } else {
      RenamedDefault(m, cases);
    }
  }

  function Whole(src: nat, cases: Stream): Stream {
    [SwitchOpen(src)] + cases + [SwitchClose]
  }

  lemma RenamedWhole(m: Numbering, src: nat, cases: Stream)
    requires AreCases(cases)
    ensures RenamedStream(m, Whole(src, cases)) == Whole(src, RenamedStream(m, cases))
    ensures Covers(m, Whole(src, cases)) ==> Covers(m, cases)
    ensures AreCases(RenamedStream(m, cases))
  {
    RenamedAppend(m, [SwitchOpen(src)], cases);
    RenamedAppend(m, [SwitchOpen(src)] + cases, [SwitchClose]);
  }

  /** What the first renaming and the unfolding make of a switch leads to the renamed label. */
  lemma RenamedUnfoldingLeads(m: Numbering, u: Unfolding, src: nat, cases: Stream, value: int, flag: bool, l: Label)
    requires AreCases(cases) && Covers(m, cases) && Seen(cases) && u.cases == 0 && u.default == ""
    requires LeadsTo(cases, value, l)
    ensures
      var chain := Unfold(u, Whole(src, RenamedStream(m, cases)));
      RunAt(chain, 0, src, value, flag, |chain| + 1) == Some(Renamed(m, l))
  {
    var renamed := RenamedStream(m, cases);
    RenamedIsUser(m, cases);
    RenamedDefault(m, cases);
    RenamedWhole(m, src, cases);
    UnfoldedSwitchLeadsTheSame(u, src, renamed, value, flag);
    var chain := Unfold(u, Whole(src, renamed));
    var end := RunAt(chain, 0, src, value, flag, |chain| + 1);
    RenamedLeads(m, cases, value, l);
    LeadsToOne(renamed, value, end.value, Renamed(m, l));
  }

  /** A switch anywhere in a stream, behind all three filters: the part that is made of it leads, whatever the value,
      to the label that the switch leads to, as the two renamings have it. */
  lemma SandwichLeadsTheSame(before: Stream, src: nat, cases: Stream, rest: Stream, m: Numbering, last: nat,
                             n: Numbering, last': nat, out: Stream, value: int, flag: bool, l: Label)
    requires Sandwiched(before + Whole(src, cases) + rest, m, last, n, last', out)
    requires InOrder(Init, before) && After(Init, before) == BlockLevel
    requires AreCases(cases) && Seen(cases) && LeadsTo(cases, value, l)
    ensures
      var r := RenamedStream(m, before);
      var start := |Unfold(Start(), r)|;
      var end := start + |Unfold(NextAll(Start(), r), Whole(src, RenamedStream(m, cases)))|;
      && start <= end <= |out|
      && RunAt(out[start..end], 0, src, value, flag, end - start + 1) == Some(Renamed(n, Renamed(m, l)))
  {
    hide NextAll, Unfold, RunAt, InOrder, After, LeadsTo, Seen, Covers, Renamed, Unique, RenamedEvent, Decimal;
    var r := RenamedStream(m, before);
    var u := NextAll(Start(), r);
    RenamingKeepsOrder(m, before, Init);
    BetweenSwitches(r);
    var chain := Unfold(u, Whole(src, RenamedStream(m, cases)));
    var tail := SandwichParts(before, src, cases, rest, m, n, out);
    RenamedUnfoldingLeads(m, u, src, cases, value, flag, l);
    RenamedRunAt(n, last', chain, 0, src, value, flag, |chain| + 1);
    Middle(RenamedStream(n, Unfold(Start(), r)), RenamedStream(n, chain), tail);
  }

  lemma Middle(a: Stream, b: Stream, c: Stream)
    ensures (a + b + c)[|a|..|a| + |b|] == b
  {}

  /** What comes out is made of what was before the switch, of the switch, and of the rest. */
  lemma SandwichParts(before: Stream, src: nat, cases: Stream, rest: Stream, m: Numbering, n: Numbering, out: Stream)
    returns (tail: Stream)
    requires AreCases(cases) && Covers(m, before + Whole(src, cases) + rest)
    requires
      var all := Unfold(Start(), RenamedStream(m, before + Whole(src, cases) + rest));
      Covers(n, all) && out == RenamedStream(n, all)
    ensures
      var r := RenamedStream(m, before);
      var chain := Unfold(NextAll(Start(), r), Whole(src, RenamedStream(m, cases)));
      && Covers(m, cases) && Covers(n, chain)
      && out == RenamedStream(n, Unfold(Start(), r)) + RenamedStream(n, chain) + tail
  {
    hide NextAll, Unfold, Covers, RenamedStream;
    var r, whole, more := RenamedStream(m, before), Whole(src, RenamedStream(m, cases)), RenamedStream(m, rest);
    RenamedAppend(m, before + Whole(src, cases), rest);
    RenamedAppend(m, before, Whole(src, cases));
    RenamedWhole(m, src, cases);
    UnfoldJoin(Start(), r + whole, more);
    UnfoldJoin(Start(), r, whole);
    var first, chain := Unfold(Start(), r), Unfold(NextAll(Start(), r), whole);
    var last := Unfold(NextAll(Start(), r + whole), more);
    RenamedAppend(n, first + chain, last);
    RenamedAppend(n, first, chain);
    tail := RenamedStream(n, last);
  }

  // ---------- the stored table ----------

  lemma RangeMore(ps: Pairs, lo: int, n: nat, name: Label)
    ensures ps + RangePairs(lo, n + 1, name) == ps + RangePairs(lo, n, name) + [(lo + n, name)]
  {
  }

  class SwitchBuilder {
    /** The case values from index 1 on; index 0 stands for the operand. */
    var operands: seq<int>
    /** The targets of the values, and at index 0 that of the default, if there is one. */
    var targets: seq<Option<Label>>

    constructor ()
      ensures operands == [0] && targets == [None]
    {
      operands, targets := [0], [None];
    }

    ghost predicate Holds(ps: Pairs, default: Option<Label>)
      reads this
    {
      && |operands| == |targets| == |ps| + 1 && targets[0] == default
      && forall i :: 0 <= i < |ps| ==> operands[i + 1] == ps[i].0 && targets[i + 1] == Some(ps[i].1)
    }

    /** A second default is refused. */
    method StoreDefault(name: Label, ghost ps: Pairs, ghost default: Option<Label>) returns (trapped: bool)
      requires Holds(ps, default)
      modifies this
      ensures trapped == default.Some? && (!trapped ==> Holds(ps, Some(name)))
    {
      if targets[0].Some? {
        return true;
      }
      targets := targets[0 := Some(name)];
      trapped := false;
    }

    method StoreCase(lo: int, hi: int, name: Label, ghost ps: Pairs, ghost default: Option<Label>)
      requires Holds(ps, default)
      modifies this
      ensures Holds(ps + RangePairs(lo, RangeSize(lo, hi), name), default)
    {
      var i := lo;
      while i <= hi
        invariant lo <= i && (i <= hi + 1 || i == lo)
        invariant Holds(ps + RangePairs(lo, i - lo, name), default)
      {
        RangeMore(ps, lo, i - lo, name);
        operands := operands + [i];
        targets := targets + [Some(name)];
        i := i + 1;
      }
    }

    /** The table of a whole switch; it is refused if and only if a default comes a second time. */
    method Store(cases: Stream) returns (trapped: bool)
      requires AreCases(cases) && operands == [0] && targets == [None]
      modifies this
      ensures trapped <==> Defaults(cases) > 1
      ensures !trapped ==> Holds(Flatten(cases), DefaultOf(cases))
    {
      hide Flatten, LastDefault, Defaults, DefaultOf, RangePairs;
      TableNone();
      assert cases[..0] == [];
      for i := 0 to |cases|
        invariant Defaults(cases[..i]) <= 1 && (Defaults(cases[..i]) == 0 <==> DefaultOf(cases[..i]).None?)
        invariant Holds(Flatten(cases[..i]), DefaultOf(cases[..i]))
      {
        ghost var before, d := Flatten(cases[..i]), DefaultOf(cases[..i]);
        TableMore(cases, i);
        DefaultsGrow(cases, i + 1);
        match cases[i] {
          case SwitchCase(lo, hi, name) => StoreCase(lo, hi, name, before, d);
          case SwitchDefault(name) =>
            var refused := StoreDefault(name, before, d);
            if refused {
              return true;
            }
            assert before + [] == before;
        }
      }
      assert cases[..|cases|] == cases;
      trapped := false;
    }
  }

  /** The last default, if there is one. */
  function DefaultOf(cases: Stream): Option<Label> {
    if Defaults(cases) == 0 then None else Some(LastDefault("", cases))
  }

  lemma TableNone()
    ensures Flatten([]) == [] && Defaults([]) == 0 && DefaultOf([]) == None
  {}

  lemma TableMore(cases: Stream, i: nat)
    requires i < |cases|
    ensures Flatten(cases[..i + 1]) == Flatten(cases[..i]) + PairsOf(cases[i])
    ensures Defaults(cases[..i + 1]) == Defaults(cases[..i]) + if cases[i].SwitchDefault? then 1 else 0
    ensures DefaultOf(cases[..i + 1]) ==
      if cases[i].SwitchDefault? then Some(cases[i].name) else DefaultOf(cases[..i])
  {
    assert cases[..i + 1][..i] == cases[..i];
  }

  /** How many defaults there are. */
  function Defaults(cases: Stream): nat {
    if cases == [] then 0 else Defaults(cases[..|cases| - 1]) + if cases[|cases| - 1].SwitchDefault? then 1 else 0
  }

  lemma {:induction false} DefaultsGrow(cases: Stream, i: nat)
    requires i <= |cases|
    ensures Defaults(cases[..i]) <= Defaults(cases)
    decreases |cases|
  {
    if i < |cases| {
      DefaultsGrow(cases[..|cases| - 1], i);
      assert cases[..|cases| - 1][..i] == cases[..i];
    } else {
      assert cases[..i] == cases;
    }
  }

  /** What the table leads to: the target of the first index with the value, or else that of index 0. */
  function TableLeads(operands: seq<int>, targets: seq<Option<Label>>, i: nat, value: int): Option<Label>
    requires |operands| == |targets| > 0 && 0 < i <= |operands|
    decreases |operands| - i
  {
    if i == |operands| then targets[0]
    else if operands[i] == value then targets[i]
    else TableLeads(operands, targets, i + 1, value)
  }

  lemma {:induction false} TableIsFirstPair(operands: seq<int>, targets: seq<Option<Label>>, ps: Pairs, default: Label,
                                            i: nat, value: int)
    requires |operands| == |targets| == |ps| + 1 && i <= |ps| && targets[0] == Some(default)
    requires forall j :: 0 <= j < |ps| ==> operands[j + 1] == ps[j].0 && targets[j + 1] == Some(ps[j].1)
    ensures TableLeads(operands, targets, i + 1, value) == Some(FirstPair(ps[i..], value, default))
    decreases |ps| - i
  {
    if i < |ps| {
      TableIsFirstPair(operands, targets, ps, default, i + 1, value);
      assert ps[i..][1..] == ps[i + 1..];
    }
  }

  /** With one default, table and unfolded chain lead to the same label for every value. */
  lemma TableLeadsTheSame(operands: seq<int>, targets: seq<Option<Label>>, cases: Stream, value: int)
    requires AreCases(cases) && |operands| == |targets| == |Flatten(cases)| + 1
    requires targets[0] == Some(LastDefault("", cases))
    requires forall j :: 0 <= j < |Flatten(cases)| ==>
      operands[j + 1] == Flatten(cases)[j].0 && targets[j + 1] == Some(Flatten(cases)[j].1)
    ensures TableLeads(operands, targets, 1, value).Some?
    ensures LeadsTo(cases, value, TableLeads(operands, targets, 1, value).value)
  {
    TableIsFirstPair(operands, targets, Flatten(cases), LastDefault("", cases), 0, value);
    assert Flatten(cases)[0..] == Flatten(cases);
    FlattenLeads(cases, value);
  }

  /** A second default: the table is refused, the unfolding leads to the last. */
  lemma SecondDefaultWins(a: Label, b: Label, u: Unfolding, value: int, flag: bool)
    requires IsUser(a) && IsUser(b) && a != "" && b != "" && u.cases == 0 && u.default == ""
    ensures
      var cases := [SwitchDefault(a), SwitchDefault(b)];
      var out := Unfold(u, [SwitchOpen(0)] + cases + [SwitchClose]);
      Defaults(cases) == 2 && RunAt(out, 0, 0, value, flag, |out| + 1) == Some(b)
  {
    var cases := [SwitchDefault(a), SwitchDefault(b)];
    assert cases[..1] == [SwitchDefault(a)] && [SwitchDefault(a)][..0] == [];
    assert Defaults([SwitchDefault(a)]) == 1;
    assert LastDefault("", cases) == b;
    assert forall e :: e in cases ==> UserEvent(e);
    UnfoldedSwitchLeadsTheSame(u, 0, cases, value, flag);
  }
}
