/** What the inclusion check says of two automata, through the union that it is run on: with the final states of both,
    and without those of the left one. */
module InclusionVerdicts {
  import opened InclusionRuns
  import opened RenamedUnion
  import opened TreeAutomata

  /** `c` is a copy of `b`, and one of `a` behind, with the final states of `a` if `keep` says so. */
  ghost predicate Joined(a: Automaton, b: Automaton, c: Automaton, f: Numbering, fs: seq<nat>, g: Numbering,
                         gs: seq<nat>, keep: bool) {
    NumbersFor(f, b, true, fs) && NumbersFor(g, a, keep, gs) && UnionOf(c, b, f, 0, a, g, keep)
  }

  /** The search on such a union can end with the answer. */
  ghost predicate Verdict(a: Automaton, b: Automaton, keep: bool, r: bool) {
    exists c, f, fs, g, gs ::
      Joined(a, b, c, f, fs, g, gs, keep) && Answers(LeftPart(c, |f|), RightPart(c, |f|), |States(c)|, r)
  }

  lemma AnsweredOn(a: Automaton, b: Automaton, c: Automaton, f: Numbering, fs: seq<nat>, g: Numbering, gs: seq<nat>,
                   keep: bool, r: bool)
    requires Joined(a, b, c, f, fs, g, gs, keep) && Answers(LeftPart(c, |f|), RightPart(c, |f|), |States(c)|, r)
    ensures Verdict(a, b, keep, r)
  {}

  lemma UnionFit(a: Automaton, b: Automaton, c: Automaton, f: Numbering, fs: seq<nat>, g: Numbering, gs: seq<nat>,
                 keep: bool)
    requires Joined(a, b, c, f, fs, g, gs, keep)
    ensures |States(c)| == |f| + |g|
    ensures Split(LeftPart(c, |f|), RightPart(c, |f|), |f|, |States(c)|)
    ensures Copied(f, 0, b, RightPart(c, |f|), true) && Copied(g, |f|, a, LeftPart(c, |f|), keep)
    ensures Ranked(a, b) ==> Ranked(LeftPart(c, |f|), RightPart(c, |f|))
  {
    hide Copied, UnionOf, LeftPart, RightPart, NumbersFor, Split;
    UnionParts(c, b, f, fs, a, g, gs, keep);
    PartsSplit(c, b, f, a, g, keep);
    StatesCounted(c, b, f, fs, a, g, gs, keep);
    if Ranked(a, b) {
      CopiedRanked(g, |f|, a, LeftPart(c, |f|), f, 0, b, RightPart(c, |f|), keep, true);
    }
  }

  // ---------- what the answers mean ----------

  /** Inclusion of copies is inclusion, if both keep their final states. */
  lemma CopiesInclude(f: Numbering, offset: nat, a: Automaton, a': Automaton, g: Numbering, offset': nat, b: Automaton,
                      b': Automaton, keep: bool)
    requires Copied(f, offset, a, a', keep) && Copied(g, offset', b, b', true)
    ensures Included(a', b') <==> !keep || Included(a, b)
  {
    hide Copied, Accepts;
    forall t
      ensures (Accepts(a', t) <==> keep && Accepts(a, t)) && (Accepts(b', t) <==> Accepts(b, t))
    {
      CopyAccepts(f, offset, a, a', keep, t);
      CopyAccepts(g, offset', b, b', true, t);
    }
  }

  /** For left-hand sides without repetition an affirmative answer means that the right automaton labels whatever the
      left one does, and inclusion only if the final states of the left one are kept. */
  lemma VerdictMeans(a: Automaton, b: Automaton, keep: bool, r: bool)
    requires Verdict(a, b, keep, r)
    ensures LinearLhs(a) ==> (r <==> Tracked(a, b) && (keep ==> Included(a, b)))
    ensures !r ==> !(Tracked(a, b) && (keep ==> Included(a, b)))
  {
    hide Answers, Joined, Copied, LeftPart, RightPart, Included, Tracked, LinearLhs, Saturated, Distinguishes, Split,
      States;
    var c, f, fs, g, gs :|
      Joined(a, b, c, f, fs, g, gs, keep) && Answers(LeftPart(c, |f|), RightPart(c, |f|), |States(c)|, r);
    var a', b' := LeftPart(c, |f|), RightPart(c, |f|);
    UnionFit(a, b, c, f, fs, g, gs, keep);
    AnswerRests(a', b', |f|, |States(c)|, r);
    VerdictMeaning(a', b', r);
    DistinguishedMeansNot(a', b');
    CopiesTrack(g, |f|, a, a', f, 0, b, b', keep, true);
    CopiesInclude(g, |f|, a, a', f, 0, b, b', keep);
    if LinearLhs(a) {
      CopiedLinear(g, |f|, a, a', keep);
    }
  }

  /** As written, without the final states of the left automaton. */
  lemma VerdictAsWritten(a: Automaton, b: Automaton, r: bool)
    requires Verdict(a, b, false, r)
    ensures LinearLhs(a) ==> (r <==> Tracked(a, b))
    ensures !r ==> exists t :: Reached(a, t) != {} && Reached(b, t) == {}
    ensures Trim(a) && Included(a, b) ==> r
  {
    hide Verdict, Trim, Included;
    VerdictMeans(a, b, false, r);
    if Trim(a) && Included(a, b) {
      TrimInclusionTracks(a, b);
    }
  }

  /** With the final states of both, the answer would be inclusion for trim left automata. */
  lemma VerdictWithFinals(a: Automaton, b: Automaton, r: bool)
    requires Verdict(a, b, true, r)
    ensures LinearLhs(a) ==> (r <==> Included(a, b) && Tracked(a, b))
    ensures LinearLhs(a) && Trim(a) ==> (r <==> Included(a, b))
  {
    hide Verdict, Trim, Included, Tracked;
    VerdictMeans(a, b, true, r);
    if Trim(a) && Included(a, b) {
      TrimInclusionTracks(a, b);
    }
  }

  // ---------- there is an answer ----------

  function Copies(m: Numbering, offset: nat, ts: seq<Transition>): (r: seq<Transition>)
    ensures |r| == |ts| && forall i :: 0 <= i < |ts| ==> r[i] == CopyOf(m, offset, ts[i])
  {
    seq(|ts|, i requires 0 <= i < |ts| => CopyOf(m, offset, ts[i]))
  }

  ghost function NumbersOf(m: Automaton, xs: seq<nat>): Numbering {
    Numbered(map[], xs + StatesMet(m.transitions))
  }

  lemma NumbersHave(m: Automaton, xs: seq<nat>)
    ensures Dense(NumbersOf(m, xs)) && HasAll(NumbersOf(m, xs), m.transitions)
  {
    hide StatesMet, Numbered, Dense;
    NoneDense();
    NumberedKeeps(map[], xs + StatesMet(m.transitions));
    forall t | t in m.transitions
      ensures Has(NumbersOf(m, xs), t)
    {
      MetHas(m.transitions, t);
    }
  }

  lemma {:induction false} ListsSome(s: set<nat>) returns (xs: seq<nat>)
    ensures Lists(xs, s)
  {
    if s == {} {
      xs := [];
    } else {
      var q :| q in s;
      xs := ListsSome(s - {q});
      ListedMore(xs, s - {q}, q);
      assert s - {q} + {q} == s;
      xs := xs + [q];
    }
  }

  lemma UnionExists(a: Automaton, b: Automaton, keep: bool)
    returns (c: Automaton, f: Numbering, fs: seq<nat>, g: Numbering, gs: seq<nat>)
    ensures Joined(a, b, c, f, fs, g, gs, keep)
  {
    hide Numbered, StatesMet, Dense, HasAll, CopyOf, Lists;
    fs := ListsSome(b.finals);
    gs := ListsSome(if keep then a.finals else {});
    f, g := NumbersOf(b, fs), NumbersOf(a, gs);
    NumbersHave(b, fs);
    NumbersHave(a, gs);
    var ts := Copies(f, 0, b.transitions);
    c := Automaton(Images(f, 0, b.finals) + (if keep then Images(g, |f|, a.finals) else {}),
                   ts + Copies(g, |f|, a.transitions));
    assert CopiesAdded(f, 0, [], b.transitions, ts) && CopiesAdded(g, |f|, ts, a.transitions, c.transitions);
  }

  lemma VerdictExists(a: Automaton, b: Automaton, keep: bool) returns (r: bool)
    ensures Verdict(a, b, keep, r)
  {
    hide Joined, Answers, Verdict, LeftPart, RightPart;
    var c, f, fs, g, gs := UnionExists(a, b, keep);
    UnionFit(a, b, c, f, fs, g, gs, keep);
    r := SearchAnswers(LeftPart(c, |f|), RightPart(c, |f|), |f|, |States(c)|);
    AnsweredOn(a, b, c, f, fs, g, gs, keep, r);
  }
}
